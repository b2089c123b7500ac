/** Failure-carrying results, the machine integer widths of the source, and its
    checked and saturating arithmetic. */
module Prelude {

  datatype Option<+T> = None | Some(value: T)

  datatype Result<+T, +E> = Ok(value: T) | Err(error: E)

  const U32_MAX: nat := 0xffff_ffff
  const U64_MAX: nat := 0xffff_ffff_ffff_ffff

  type U8 = x: nat | x <= 0xff
  type U16 = x: nat | x <= 0xffff
  type U32 = x: nat | x <= U32_MAX
  type U64 = x: nat | x <= U64_MAX

  function SatAdd32(a: U32, b: nat): U32 {
    if a + b <= U32_MAX then a + b else U32_MAX
  }

  function SatAdd64(a: U64, b: nat): U64 {
    if a + b <= U64_MAX then a + b else U64_MAX
  }

  function SatMul64(a: U64, b: U64): U64 {
    if a * b <= U64_MAX then a * b else U64_MAX
  }

  function CheckedAdd64(a: U64, b: nat): Option<U64> {
    if a + b <= U64_MAX then Some(a + b) else None
  }

  function Min(a: nat, b: nat): nat {
    if a <= b then a else b
  }

  function Max(a: nat, b: nat): nat {
    if a <= b then b else a
  }

  function SatSub(a: nat, b: nat): nat {
    if a <= b then 0 else a - b
  }

  function Clamp(x: nat, lo: nat, hi: nat): (r: nat)
    requires lo <= hi
    ensures lo <= r <= hi
    ensures lo <= x <= hi ==> r == x
  {
    if x < lo then lo else if x > hi then hi else x
  }
}

/** Ordered iteration over finite sets: the sequence in which a `BTreeMap` or a
    `BTreeSet` yields its keys, given an order-reflecting rank of the keys. */
module Ordered {

  ghost predicate InjectiveOn<T(!new)>(s: set<T>, rank: T -> int) {
    forall x, y :: x in s && y in s && rank(x) == rank(y) ==> x == y
  }

  ghost predicate StrictlySorted<T>(s: seq<T>, rank: T -> int) {
    forall i, j :: 0 <= i < j < |s| ==> rank(s[i]) < rank(s[j])
  }

  function Elements<T(==)>(s: seq<T>): set<T> {
    set x | x in s
  }

  lemma LeastExists<T(!new)>(s: set<T>, rank: T -> int)
    requires s != {}
    ensures exists m :: m in s && forall y :: y in s ==> rank(m) <= rank(y)
  {
    var x :| x in s;
    if s == {x} {
      assert forall y :: y in s ==> rank(x) <= rank(y);
    } else {
      LeastExists(s - {x}, rank);
      var m :| m in s - {x} && forall y :: y in s - {x} ==> rank(m) <= rank(y);
      var best := if rank(x) <= rank(m) then x else m;
      assert best in s && forall y :: y in s ==> rank(best) <= rank(y);
    }
  }

  function Least<T(!new,==)>(s: set<T>, rank: T -> int): (m: T)
    requires s != {} && InjectiveOn(s, rank)
    ensures m in s && forall y :: y in s ==> rank(m) <= rank(y)
  {
    LeastExists(s, rank);
    var m :| m in s && forall y :: y in s ==> rank(m) <= rank(y);
    m
  }

  lemma PrependSorted<T(!new)>(m: T, r: seq<T>, rank: T -> int)
    requires StrictlySorted(r, rank)
    requires forall x :: x in r ==> rank(m) < rank(x)
    ensures StrictlySorted([m] + r, rank)
  {
    var t := [m] + r;
    forall i, j | 0 <= i < j < |t| ensures rank(t[i]) < rank(t[j]) {
      assert t[j] == r[j - 1] && r[j - 1] in r;
      assert i > 0 ==> t[i] == r[i - 1];
    }
  }

  /** The keys of a `BTreeSet` in iteration order. */
  function Ascending<T(!new,==)>(s: set<T>, rank: T -> int): (r: seq<T>)
    requires InjectiveOn(s, rank)
    ensures forall x :: x in r <==> x in s
    ensures |r| == |s|
    ensures StrictlySorted(r, rank)
  {
    if s == {} then [] else
      var m := Least(s, rank);
      var rest := Ascending(s - {m}, rank);
      assert forall x :: x in rest ==> rank(m) < rank(x);
      PrependSorted(m, rest, rank);
      [m] + rest
  }

  lemma SameHead<T(!new)>(a: seq<T>, b: seq<T>, rank: T -> int)
    requires StrictlySorted(a, rank) && StrictlySorted(b, rank)
    requires a != [] && b != []
    requires forall x :: x in a <==> x in b
    ensures a[0] == b[0]
  {
    assert a[0] in b && b[0] in a;
    var i :| 0 <= i < |b| && b[i] == a[0];
    var j :| 0 <= j < |a| && a[j] == b[0];
    assert rank(b[0]) <= rank(b[i]);
    assert rank(a[0]) <= rank(a[j]);
  }

  lemma TailMember<T(!new)>(a: seq<T>, rank: T -> int, x: T)
    requires a != [] && StrictlySorted(a, rank)
    ensures x in a[1..] <==> x in a && x != a[0]
  {
    assert forall k :: 1 <= k < |a| ==> rank(a[0]) < rank(a[k]);
    assert a == [a[0]] + a[1..];
  }

  /** A strictly sorted sequence is determined by its set of elements. */
  lemma {:induction false} SortedUnique<T(!new)>(a: seq<T>, b: seq<T>, rank: T -> int)
    requires StrictlySorted(a, rank) && StrictlySorted(b, rank)
    requires forall x :: x in a <==> x in b
    ensures a == b
  {
    assert a != [] ==> a[0] in b;
    assert b != [] ==> b[0] in a;
    if a != [] && b != [] {
      SameHead(a, b, rank);
      forall x ensures x in a[1..] <==> x in b[1..] {
        TailMember(a, rank, x);
        TailMember(b, rank, x);
      }
      SortedUnique(a[1..], b[1..], rank);
      assert a == [a[0]] + a[1..] && b == [b[0]] + b[1..];
    }
  }
}
