/** Sorting by an integer rank, and why the sorted form of a set is canonical. */
module Ordering {
  ghost predicate Sorted<T>(xs: seq<T>, rank: T -> int) {
    forall i, j :: 0 <= i < j < |xs| ==> rank(xs[i]) <= rank(xs[j])
  }

  ghost predicate StrictlySorted<T>(xs: seq<T>, rank: T -> int) {
    forall i, j :: 0 <= i < j < |xs| ==> rank(xs[i]) < rank(xs[j])
  }

  ghost predicate RanksDiffer<T>(xs: seq<T>, rank: T -> int) {
    forall i, j :: 0 <= i < j < |xs| ==> rank(xs[i]) != rank(xs[j])
  }

  ghost predicate SameElements<T(!new)>(xs: seq<T>, ys: seq<T>) {
    forall x :: x in xs <==> x in ys
  }

  ghost function Elements<T>(xs: seq<T>): set<T> {
    set x | x in xs
  }

  function Insert<T>(x: T, ys: seq<T>, rank: T -> int): (zs: seq<T>)
    ensures |zs| == |ys| + 1
  {
    if ys == [] || rank(x) <= rank(ys[0]) then [x] + ys else [ys[0]] + Insert(x, ys[1..], rank)
  }

  function SortBy<T>(xs: seq<T>, rank: T -> int): (ys: seq<T>)
    ensures |ys| == |xs|
  {
    if xs == [] then [] else Insert(xs[0], SortBy(xs[1..], rank), rank)
  }

  lemma {:induction false} InsertElements<T>(x: T, ys: seq<T>, rank: T -> int, y: T)
    ensures y in Insert(x, ys, rank) <==> y == x || y in ys
  {
    if ys != [] && rank(x) > rank(ys[0]) {
      InsertElements(x, ys[1..], rank, y);
      assert y in ys <==> y == ys[0] || y in ys[1..];
    }
  }

  lemma ConsSorts<T>(x: T, ys: seq<T>, rank: T -> int)
    ensures Sorted(ys, rank) && (forall y :: y in ys ==> rank(x) <= rank(y)) ==> Sorted([x] + ys, rank)
    ensures StrictlySorted(ys, rank) && (forall y :: y in ys ==> rank(x) < rank(y)) ==> StrictlySorted([x] + ys, rank)
  {
  }

  lemma InsertAbove<T(!new)>(x: T, ys: seq<T>, rank: T -> int, low: int)
    requires low <= rank(x) && forall y :: y in ys ==> low <= rank(y)
    ensures forall y :: y in Insert(x, ys, rank) ==> low <= rank(y)
  {
    forall y | y in Insert(x, ys, rank)
      ensures low <= rank(y)
    {
      InsertElements(x, ys, rank, y);
    }
  }

  lemma {:induction false} InsertSorts<T(!new)>(x: T, ys: seq<T>, rank: T -> int)
    requires Sorted(ys, rank)
    ensures Sorted(Insert(x, ys, rank), rank)
  {
    if ys == [] || rank(x) <= rank(ys[0]) {
      ConsSorts(x, ys, rank);
    } else {
      InsertSorts(x, ys[1..], rank);
      InsertAbove(x, ys[1..], rank, rank(ys[0]));
      ConsSorts(ys[0], Insert(x, ys[1..], rank), rank);
    }
  }

  lemma {:induction false} InsertSortsStrictly<T(!new)>(x: T, ys: seq<T>, rank: T -> int)
    requires StrictlySorted(ys, rank) && forall y :: y in ys ==> rank(y) != rank(x)
    ensures StrictlySorted(Insert(x, ys, rank), rank)
  {
    if ys == [] {
    } else if rank(x) <= rank(ys[0]) {
      assert rank(ys[0]) != rank(x);
      ConsSorts(x, ys, rank);
    } else {
      InsertSortsStrictly(x, ys[1..], rank);
      InsertAbove(x, ys[1..], rank, rank(ys[0]) + 1);
      ConsSorts(ys[0], Insert(x, ys[1..], rank), rank);
    }
  }

  lemma {:induction false} SortKeepsElements<T(!new)>(xs: seq<T>, rank: T -> int)
    ensures SameElements(SortBy(xs, rank), xs)
  {
    if xs != [] {
      var rest := SortBy(xs[1..], rank);
      SortKeepsElements(xs[1..], rank);
      forall y
        ensures y in SortBy(xs, rank) <==> y in xs
      {
        InsertElements(xs[0], rest, rank, y);
        assert y in xs <==> y == xs[0] || y in xs[1..];
      }
    }
  }

  lemma {:induction false} SortSorts<T(!new)>(xs: seq<T>, rank: T -> int)
    ensures Sorted(SortBy(xs, rank), rank)
    ensures RanksDiffer(xs, rank) ==> StrictlySorted(SortBy(xs, rank), rank)
  {
    if xs != [] {
      var rest := SortBy(xs[1..], rank);
      SortSorts(xs[1..], rank);
      SortKeepsElements(xs[1..], rank);
      InsertSorts(xs[0], rest, rank);
      if RanksDiffer(xs, rank) {
        InsertSortsStrictly(xs[0], rest, rank);
      }
    }
  }

  /** A set has at most one strictly sorted listing. */
  lemma {:induction false} SortedListingIsUnique<T(!new)>(xs: seq<T>, ys: seq<T>, rank: T -> int)
    requires StrictlySorted(xs, rank) && StrictlySorted(ys, rank)
    requires SameElements(xs, ys)
    ensures xs == ys
  {
    assert ys != [] ==> ys[0] in xs;
    if xs != [] {
      assert xs[0] in ys && ys[0] in xs;
      assert xs[0] == ys[0];
      forall x
        ensures x in xs[1..] <==> x in ys[1..]
      {
        assert x in xs[1..] <==> x in xs && x != xs[0];
        assert x in ys[1..] <==> x in ys && x != ys[0];
      }
      SortedListingIsUnique(xs[1..], ys[1..], rank);
      assert xs == [xs[0]] + xs[1..] && ys == [ys[0]] + ys[1..];
    }
  }

  /** slices.Compact: drop repeated neighbours. */
  function Compact<T(==)>(xs: seq<T>): seq<T> {
    if |xs| < 2 then xs
    else if xs[0] == xs[1] then Compact(xs[1..])
    else [xs[0]] + Compact(xs[1..])
  }

  function UniqueSorted<T(==)>(xs: seq<T>, rank: T -> int): seq<T> {
    Compact(SortBy(xs, rank))
  }

  lemma CompactStep<T(!new)>(xs: seq<T>, rank: T -> int)
    requires |xs| >= 2 && Sorted(xs, rank) && xs[0] != xs[1] && rank(xs[0]) != rank(xs[1])
    requires SameElements(Compact(xs[1..]), xs[1..]) && StrictlySorted(Compact(xs[1..]), rank)
    ensures SameElements(Compact(xs), xs) && StrictlySorted(Compact(xs), rank)
  {
    var rest := Compact(xs[1..]);
    assert forall x :: x in xs <==> x == xs[0] || x in xs[1..];
    forall y | y in rest
      ensures rank(xs[0]) < rank(y)
    {
      assert y in xs[1..];
    }
    ConsSorts(xs[0], rest, rank);
  }

  lemma {:induction false} CompactSorted<T(!new)>(xs: seq<T>, rank: T -> int)
    requires Sorted(xs, rank) && (forall x, y :: x in xs && y in xs && rank(x) == rank(y) ==> x == y)
    ensures SameElements(Compact(xs), xs) && StrictlySorted(Compact(xs), rank)
  {
    if |xs| >= 2 {
      CompactSorted(xs[1..], rank);
      if xs[0] != xs[1] {
        CompactStep(xs, rank);
      } else {
        assert forall x :: x in xs <==> x == xs[0] || x in xs[1..];
      }
    }
  }

  lemma UniqueSortedIsListing<T(!new)>(xs: seq<T>, rank: T -> int)
    requires forall x, y :: x in xs && y in xs && rank(x) == rank(y) ==> x == y
    ensures SameElements(UniqueSorted(xs, rank), xs) && StrictlySorted(UniqueSorted(xs, rank), rank)
  {
    SortKeepsElements(xs, rank);
    SortSorts(xs, rank);
    CompactSorted(SortBy(xs, rank), rank);
  }

  /** Iterating over a Go map: every element once, in no particular order. */
  method Listing<T(==, !new)>(s: set<T>) returns (xs: seq<T>)
    ensures forall x :: x in xs <==> x in s
    ensures forall i, j :: 0 <= i < j < |xs| ==> xs[i] != xs[j]
    ensures |xs| == |s|
  {
    xs := [];
    var rest := s;
    while rest != {}
      invariant rest <= s && |xs| + |rest| == |s|
      invariant forall x :: x in xs <==> x in s && x !in rest
      invariant forall i, j :: 0 <= i < j < |xs| ==> xs[i] != xs[j]
      decreases rest
    {
      var x :| x in rest;
      xs := xs + [x];
      rest := rest - {x};
    }
  }

  lemma SubsetSize<T>(a: set<T>, b: set<T>)
    requires a <= b
    ensures |a| <= |b|
  {
    assert b == a + (b - a);
  }

  lemma {:induction false} FewElements<T>(xs: seq<T>)
    ensures |Elements(xs)| <= |xs|
  {
    if xs == [] {
      assert Elements(xs) == {};
    } else {
      FewElements(xs[1..]);
      assert Elements(xs) == {xs[0]} + Elements(xs[1..]);
      UnionSize({xs[0]}, Elements(xs[1..]));
    }
  }

  lemma UnionSize<T>(a: set<T>, b: set<T>)
    ensures |a + b| <= |a| + |b|
  {
    assert a + b == a + (b - a);
    assert b - a <= b;
    assert b == (b - a) + (b * a);
  }

  /** Every listed value is the value of an element. */
  ghost predicate OnlyValues<K(!new), V>(s: set<K>, f: K -> V, xs: seq<V>) {
    forall i :: 0 <= i < |xs| ==> exists k :: k in s && xs[i] == f(k)
  }

  ghost predicate AllValues<K(!new), V>(s: set<K>, f: K -> V, xs: seq<V>) {
    forall k :: k in s ==> f(k) in xs
  }

  lemma ValueSource<K(!new), V>(s: set<K>, f: K -> V, xs: seq<V>, i: nat) returns (k: K)
    requires OnlyValues(s, f, xs) && i < |xs|
    ensures k in s && xs[i] == f(k)
  {
    var x := xs[i];
    k :| k in s && x == f(k);
  }

  /** The values of f on a set, one for each element. */
  method ImageListing<K(==, !new), V>(s: set<K>, f: K -> V) returns (xs: seq<V>)
    ensures OnlyValues(s, f, xs) && AllValues(s, f, xs) && |xs| == |s|
  {
    var keys := Listing(s);
    xs := [];
    for i := 0 to |keys|
      invariant |xs| == i && forall j :: 0 <= j < i ==> xs[j] == f(keys[j])
    {
      xs := xs + [f(keys[i])];
    }
    forall k | k in s
      ensures f(k) in xs
    {
      assert k in keys;
      var i :| 0 <= i < |keys| && keys[i] == k;
      assert xs[i] == f(k);
    }
    forall i | 0 <= i < |xs|
      ensures exists k :: k in s && xs[i] == f(k)
    {
      assert keys[i] in s && xs[i] == f(keys[i]);
    }
  }
}
