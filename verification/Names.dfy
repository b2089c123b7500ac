/** Dotted names as byte strings: splitting, joining and trimming. */
module Names {
  import opened Prelude

  type Bytes = seq<U8>

  const DOT: U8 := 46

  /** All bytes up to the first dot. */
  function FirstLabel(s: Bytes): (r: Bytes)
    ensures |r| <= |s| && r == s[..|r|] && DOT !in r
    ensures |r| < |s| ==> s[|r|] == DOT
  {
    if s == [] || s[0] == DOT then [] else
      var r := FirstLabel(s[1..]);
      assert s == [s[0]] + s[1..];
      [s[0]] + r
  }

  /** Rust's `str::split('.')`: always at least one, possibly empty, label. */
  function Split(s: Bytes): (r: seq<Bytes>)
    ensures |r| >= 1
    decreases |s|
  {
    var head := FirstLabel(s);
    if |head| == |s| then [head] else [head] + Split(s[|head| + 1..])
  }

  /** Rust's `[_]::join(".")`. */
  function Join(labels: seq<Bytes>): Bytes {
    if labels == [] then [] else
      if |labels| == 1 then labels[0] else labels[0] + [DOT] + Join(labels[1..])
  }

  function TrimDots(s: Bytes): (r: Bytes)
    ensures |r| <= |s| && r == s[..|r|]
    ensures r != [] ==> r[|r| - 1] != DOT
  {
    if s != [] && s[|s| - 1] == DOT then TrimDots(s[..|s| - 1]) else s
  }

  lemma {:induction false} FirstLabelOf(head: Bytes, rest: Bytes)
    requires DOT !in head && (rest == [] || rest[0] == DOT)
    ensures FirstLabel(head + rest) == head
  {
    if head != [] {
      assert (head + rest)[1..] == head[1..] + rest;
      FirstLabelOf(head[1..], rest);
    } else {
      assert head + rest == rest;
    }
  }

  lemma {:induction false} SplitJoin(labels: seq<Bytes>)
    requires labels != [] && forall i :: 0 <= i < |labels| ==> DOT !in labels[i]
    ensures Split(Join(labels)) == labels
  {
    if |labels| == 1 {
      assert labels[0] + [] == labels[0];
      FirstLabelOf(labels[0], []);
    } else {
      var rest := [DOT] + Join(labels[1..]);
      assert Join(labels) == labels[0] + rest;
      FirstLabelOf(labels[0], rest);
      assert Join(labels)[|labels[0]| + 1..] == Join(labels[1..]);
      SplitJoin(labels[1..]);
    }
  }

  /** Joining loses nothing if and only if no label holds a dot. */
  lemma SplitJoinExact(labels: seq<Bytes>)
    requires labels != []
    ensures Split(Join(labels)) == labels <==> forall i :: 0 <= i < |labels| ==> DOT !in labels[i]
  {
    if forall i :: 0 <= i < |labels| ==> DOT !in labels[i] {
      SplitJoin(labels);
    } else {
      JoinSplit(Join(labels));
    }
  }

  lemma {:induction false} JoinSplit(s: Bytes)
    ensures Join(Split(s)) == s
    ensures forall i :: 0 <= i < |Split(s)| ==> DOT !in Split(s)[i]
    decreases |s|
  {
    var head := FirstLabel(s);
    if |head| != |s| {
      JoinSplit(s[|head| + 1..]);
      assert Split(s)[1..] == Split(s[|head| + 1..]);
      assert s == head + [DOT] + s[|head| + 1..];
    }
  }
}
