/** Stable insertion sort by an integer key, and what reordering keeps. */
module Sorting {
  import opened Ordered

  ghost predicate UniqueBy<T>(xs: seq<T>, key: T -> int) {
    forall i, j :: 0 <= i < j < |xs| ==> key(xs[i]) != key(xs[j])
  }

  lemma UniqueInjective<T(!new)>(xs: seq<T>, key: T -> int)
    requires UniqueBy(xs, key)
    ensures InjectiveOn(Elements(xs), key)
  {
    forall x, y | x in Elements(xs) && y in Elements(xs) && key(x) == key(y) ensures x == y {
      var i :| 0 <= i < |xs| && xs[i] == x;
      var j :| 0 <= j < |xs| && xs[j] == y;
      assert i == j;
    }
  }

  /** The elements in key order. */
  ghost function InOrder<T(!new)>(xs: seq<T>, key: T -> int): (r: seq<T>)
    requires UniqueBy(xs, key)
    ensures StrictlySorted(r, key) && forall x :: x in r <==> x in xs
  {
    UniqueInjective(xs, key);
    Ascending(Elements(xs), key)
  }

  ghost predicate SameElements<T(!new)>(a: seq<T>, b: seq<T>) {
    forall x :: x in a <==> x in b
  }

  lemma InOrderSame<T(!new)>(a: seq<T>, b: seq<T>, key: T -> int)
    requires UniqueBy(a, key) && UniqueBy(b, key) && SameElements(a, b)
    ensures InOrder(a, key) == InOrder(b, key)
  {
    SortedUnique(InOrder(a, key), InOrder(b, key), key);
  }

  lemma {:induction false} Twice<T>(xs: seq<T>, x: T)
    requires multiset(xs)[x] >= 2
    ensures exists i, j :: 0 <= i < j < |xs| && xs[i] == x && xs[j] == x
  {
    var init, last := xs[..|xs| - 1], xs[|xs| - 1];
    assert xs == init + [last];
    if last == x {
      assert multiset(init)[x] >= 1;
      assert x in init;
      var i :| 0 <= i < |init| && init[i] == x;
      assert xs[i] == x && xs[|xs| - 1] == x;
    } else {
      Twice(init, x);
      var i, j :| 0 <= i < j < |init| && init[i] == x && init[j] == x;
      assert xs[i] == x && xs[j] == x;
    }
  }

  lemma {:induction false} CountTwo<T>(xs: seq<T>, i: nat, j: nat)
    requires i < j < |xs| && xs[i] == xs[j]
    ensures multiset(xs)[xs[i]] >= 2
  {
    var init, last := xs[..|xs| - 1], xs[|xs| - 1];
    assert xs == init + [last];
    if j == |xs| - 1 {
      assert init[i] in init;
    } else {
      CountTwo(init, i, j);
    }
  }

  lemma UniqueReordered<T>(a: seq<T>, b: seq<T>, key: T -> int)
    requires multiset(a) == multiset(b) && UniqueBy(a, key)
    ensures UniqueBy(b, key)
  {
    forall i, j | 0 <= i < j < |b| ensures key(b[i]) != key(b[j]) {
      if key(b[i]) == key(b[j]) {
        assert b[i] in multiset(b) && b[j] in multiset(b);
        assert b[i] in a && b[j] in a;
        var m :| 0 <= m < |a| && a[m] == b[i];
        var n :| 0 <= n < |a| && a[n] == b[j];
        assert m == n;
        CountTwo(b, i, j);
        Twice(a, b[i]);
        assert false;
      }
    }
  }

  lemma ReorderedElements<T(!new)>(a: seq<T>, b: seq<T>)
    requires multiset(a) == multiset(b)
    ensures SameElements(a, b)
  {
    forall x ensures x in a <==> x in b {
      assert x in a <==> x in multiset(a);
      assert x in b <==> x in multiset(b);
    }
  }

  lemma UniqueNext<T>(xs: seq<T>, x: T, key: T -> int)
    requires UniqueBy(xs, key)
    ensures UniqueBy(xs + [x], key) <==> forall y :: y in xs ==> key(y) != key(x)
  {
    var all := xs + [x];
    if UniqueBy(all, key) {
      forall y | y in xs ensures key(y) != key(x) {
        var i :| 0 <= i < |xs| && xs[i] == y;
        assert all[i] == y && all[|xs|] == x;
      }
    }
    if forall y :: y in xs ==> key(y) != key(x) {
      forall i, j | 0 <= i < j < |all| ensures key(all[i]) != key(all[j]) {
        assert all[i] == xs[i] && xs[i] in xs;
        assert j < |xs| ==> all[j] == xs[j];
      }
    }
  }

  lemma UniquePrefix<T>(xs: seq<T>, n: nat, key: T -> int)
    requires n <= |xs| && UniqueBy(xs, key)
    ensures UniqueBy(xs[..n], key)
  {
  }

  // ------------------------------------------------------------------------------ sums

  function Sum<T>(xs: seq<T>, f: T -> nat): nat {
    if xs == [] then 0 else Sum(xs[..|xs| - 1], f) + f(xs[|xs| - 1])
  }

  lemma {:induction false} SumWithout<T>(xs: seq<T>, f: T -> nat, i: nat)
    requires i < |xs|
    ensures Sum(xs, f) == Sum(xs[..i] + xs[i + 1..], f) + f(xs[i])
  {
    var rest := xs[..i] + xs[i + 1..];
    if i < |xs| - 1 {
      var init := xs[..|xs| - 1];
      SumWithout(init, f, i);
      assert rest[..|rest| - 1] == init[..i] + init[i + 1..];
    } else {
      assert rest == xs[..i];
    }
  }

  lemma SumNext<T>(xs: seq<T>, i: nat, f: T -> nat)
    requires i < |xs|
    ensures Sum(xs[..i + 1], f) == Sum(xs[..i], f) + f(xs[i])
  {
    assert xs[..i + 1][..i] == xs[..i];
  }

  lemma TakenOut<T>(xs: seq<T>, i: nat)
    requires i < |xs|
    ensures multiset(xs[..i] + xs[i + 1..]) == multiset(xs) - multiset{xs[i]}
  {
    assert xs == xs[..i] + [xs[i]] + xs[i + 1..];
  }

  /** A sum does not depend on the order of its terms. */
  lemma {:induction false} SumReordered<T>(a: seq<T>, b: seq<T>, f: T -> nat)
    requires multiset(a) == multiset(b)
    ensures Sum(a, f) == Sum(b, f)
  {
    assert |multiset(a)| == |multiset(b)|;
    if a != [] {
      var n := |a| - 1;
      assert a[n] in multiset(b);
      var i :| 0 <= i < |b| && b[i] == a[n];
      TakenOut(a, n);
      TakenOut(b, i);
      assert a[..n] + a[n + 1..] == a[..n];
      SumReordered(a[..n], b[..i] + b[i + 1..], f);
      SumWithout(b, f, i);
    }
  }

  lemma {:induction false} SumSame<S, T>(a: seq<S>, b: seq<T>, f: S -> nat, g: T -> nat)
    requires |a| == |b| && forall i :: 0 <= i < |a| ==> f(a[i]) == g(b[i])
    ensures Sum(a, f) == Sum(b, g)
  {
    if a != [] {
      SumSame(a[..|a| - 1], b[..|b| - 1], f, g);
    }
  }

  lemma CountOnce<T>(xs: seq<T>, key: T -> int, x: T)
    requires UniqueBy(xs, key)
    ensures multiset(xs)[x] == if x in xs then 1 else 0
  {
    assert x in xs <==> x in multiset(xs);
    if multiset(xs)[x] >= 2 {
      Twice(xs, x);
      assert false;
    }
  }

  /** Lists without repetition and with the same elements differ in order only. */
  lemma UniqueSame<T(!new)>(a: seq<T>, b: seq<T>, key: T -> int)
    requires UniqueBy(a, key) && UniqueBy(b, key) && SameElements(a, b)
    ensures multiset(a) == multiset(b)
  {
    forall x ensures multiset(a)[x] == multiset(b)[x] {
      CountOnce(a, key, x);
      CountOnce(b, key, x);
    }
  }

  // --------------------------------------------------------------------------- sorting

  ghost predicate SortedBy<T>(xs: seq<T>, key: T -> int) {
    forall i, j :: 0 <= i < j < |xs| ==> key(xs[i]) <= key(xs[j])
  }

  lemma SplicedAt<T>(xs: seq<T>, i: nat, x: T, k: nat)
    requires i <= |xs| && k <= |xs|
    ensures (xs[..i] + [x] + xs[i..])[k] == if k < i then xs[k] else if k == i then x else xs[k - 1]
  {
  }

  lemma SplicedSorted<T>(xs: seq<T>, i: nat, x: T, key: T -> int)
    requires SortedBy(xs, key) && i <= |xs|
    requires (i == 0 || key(xs[i - 1]) <= key(x)) && (i == |xs| || key(x) <= key(xs[i]))
    ensures SortedBy(xs[..i] + [x] + xs[i..], key)
  {
    var r := xs[..i] + [x] + xs[i..];
    forall a, b | 0 <= a < b < |r| ensures key(r[a]) <= key(r[b]) {
      SplicedAt(xs, i, x, a);
      SplicedAt(xs, i, x, b);
    }
  }

  /** Insertion into a sorted list, after equal keys. */
  method Insert<T>(xs: seq<T>, x: T, key: T -> int) returns (r: seq<T>)
    requires SortedBy(xs, key)
    ensures SortedBy(r, key) && multiset(r) == multiset(xs) + multiset{x}
  {
    var i := |xs|;
    while i > 0 && key(x) < key(xs[i - 1])
      invariant 0 <= i <= |xs| && (i < |xs| ==> key(x) < key(xs[i]))
    {
      i := i - 1;
    }
    SplicedSorted(xs, i, x, key);
    assert xs == xs[..i] + xs[i..];
    r := xs[..i] + [x] + xs[i..];
  }

  method SortBy<T>(xs: seq<T>, key: T -> int) returns (r: seq<T>)
    ensures SortedBy(r, key) && multiset(r) == multiset(xs)
  {
    r := [];
    for i := 0 to |xs|
      invariant SortedBy(r, key) && multiset(r) == multiset(xs[..i])
    {
      assert xs[..i + 1] == xs[..i] + [xs[i]];
      r := Insert(r, xs[i], key);
    }
    assert xs[..|xs|] == xs;
  }
}
