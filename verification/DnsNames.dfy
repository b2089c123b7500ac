/** DNS names on the wire: compressed-name parsing, canonical query names and
    their encoding. */
module DnsNames {
  import opened Prelude
  import opened Names

  const MAX_POINTER_HOPS := 32
  const MAX_NAME_BYTES := 253

  datatype DnsError = Malformed | InvalidQueryName | Configuration | TransactionMismatch | QuestionMismatch | TcpFallbackRequired

  function Lower(b: U8): U8 {
    if 65 <= b <= 90 then b + 32 else b
  }

  function LowerAll(s: Bytes): (r: Bytes)
    ensures |r| == |s| && forall i :: 0 <= i < |s| ==> r[i] == Lower(s[i])
  {
    seq(|s|, i requires 0 <= i < |s| => Lower(s[i]))
  }

  predicate Ascii(s: Bytes) {
    forall i :: 0 <= i < |s| ==> s[i] < 128
  }

  // ------------------------------------------------------------------------ parsing

  /** Where a name scan stands: the cursor, the labels so far, the offset after the
      first pointer, the offsets already visited, and the two bounds. */
  datatype Scan = Scan(position: nat, labels: seq<Bytes>, next: Option<nat>, visited: set<nat>, expanded: nat, hops: nat)

  function Begin(start: nat): Scan {
    Scan(start, [], None, {}, 0, 0)
  }

  predicate Within(p: Bytes, i: nat) { i < |p| }

  function Offsets(p: Bytes): set<nat> {
    set i: nat | i < |p| && Within(p, i)
  }

  datatype Turn = Done | Bad | More(scan: Scan)

  /** One turn of the scan loop. */
  function Step(p: Bytes, s: Scan): Turn {
    if s.position >= |p| || s.position in s.visited then Bad
    else
      var length: nat := p[s.position];
      var visited := s.visited + {s.position};
      if length >= 0xc0 then
        if s.position + 1 >= |p| then Bad
        else
          var pointer := (length - 0xc0) * 0x100 + p[s.position + 1];
          if pointer >= |p| || s.hops + 1 > MAX_POINTER_HOPS then Bad
          else More(s.(position := pointer, visited := visited, hops := s.hops + 1,
                       next := if s.next.Some? then s.next else Some(s.position + 2)))
      else if length >= 0x40 then Bad
      else if length == 0 then Done
      else
        var end := s.position + 1 + length;
        if end > |p| || !Ascii(p[s.position + 1..end]) then Bad
        else
          var expanded := s.expanded + length + (if s.labels != [] then 1 else 0);
          if expanded > MAX_NAME_BYTES then Bad
          else More(s.(position := end, visited := visited, expanded := expanded,
                       labels := s.labels + [LowerAll(p[s.position + 1..end])]))
  }

  /** Where the scan ends: no offset is visited twice, so it does on every input. */
  function End(p: Bytes, s: Scan): Option<Scan>
    decreases Offsets(p) - s.visited
  {
    match Step(p, s)
    case Done => Some(s)
    case Bad => None
    case More(t) =>
      assert Within(p, s.position) && s.position in Offsets(p) - s.visited;
      End(p, t)
  }

  /** The offset after the name: after its first pointer, or after its end. */
  function Cursor(e: Scan): nat { if e.next.Some? then e.next.value else e.position + 1 }

  function Walk(p: Bytes, s: Scan): Result<(Bytes, nat), DnsError> {
    match End(p, s)
    case None => Err(Malformed)
    case Some(e) => Ok((Join(e.labels), Cursor(e)))
  }

  function ParseName(p: Bytes, start: nat): Result<(Bytes, nat), DnsError> {
    if start >= |p| then Err(Malformed) else Walk(p, Begin(start))
  }

  /** `parse_name`. */
  method ScanName(p: Bytes, start: nat) returns (r: Result<(Bytes, nat), DnsError>)
    ensures r == ParseName(p, start)
  {
    if start >= |p| { return Err(Malformed); }
    var s := Begin(start);
    while true
      invariant Walk(p, s) == Walk(p, Begin(start))
      decreases Offsets(p) - s.visited
    {
      var turn := Step(p, s);
      match turn
      case Done => return Ok((Join(s.labels), Cursor(s)));
      case Bad => return Err(Malformed);
      case More(t) =>
        assert Within(p, s.position) && s.position in Offsets(p) - s.visited;
        s := t;
    }
  }

  // -------------------------------------------------------------- what parsing returns

  ghost predicate CursorOk(p: Bytes, start: nat, s: Scan) {
    if s.next.Some? then start < s.next.value <= |p| else start <= s.position
  }

  /** The cursor after a name lies strictly past its start and within the packet. */
  lemma {:induction false} WalkCursor(p: Bytes, start: nat, s: Scan)
    requires CursorOk(p, start, s)
    ensures Walk(p, s).Ok? ==> start < Walk(p, s).value.1 <= |p|
    decreases Offsets(p) - s.visited
  {
    match Step(p, s)
    case More(t) =>
      assert Within(p, s.position) && s.position in Offsets(p) - s.visited;
      WalkCursor(p, start, t);
    case _ =>
  }

  lemma NameCursor(p: Bytes, start: nat)
    ensures ParseName(p, start).Ok? ==> start < ParseName(p, start).value.1 <= |p|
  {
    if start < |p| { WalkCursor(p, start, Begin(start)); }
  }

  /** Length of the labels joined with dots. */
  function JoinedLength(labels: seq<Bytes>): nat {
    if labels == [] then 0
    else JoinedLength(labels[..|labels| - 1]) + |labels[|labels| - 1]| + (if |labels| > 1 then 1 else 0)
  }

  lemma {:induction false} JoinAppend(labels: seq<Bytes>, last: Bytes)
    ensures Join(labels + [last]) == if labels == [] then last else Join(labels) + [DOT] + last
  {
    if |labels| == 1 {
      assert (labels + [last])[1..] == [last];
    } else if labels != [] {
      assert (labels + [last])[1..] == labels[1..] + [last];
      JoinAppend(labels[1..], last);
    } else {
      assert labels + [last] == [last];
    }
  }

  lemma {:induction false} JoinLength(labels: seq<Bytes>)
    ensures |Join(labels)| == JoinedLength(labels)
  {
    if labels != [] {
      var init, last := labels[..|labels| - 1], labels[|labels| - 1];
      assert labels == init + [last];
      JoinAppend(init, last);
      JoinLength(init);
    }
  }

  ghost predicate Lowered(s: Bytes) {
    forall i :: 0 <= i < |s| ==> s[i] < 128 && !(65 <= s[i] <= 90)
  }

  lemma {:induction false} JoinLowered(labels: seq<Bytes>)
    requires forall i :: 0 <= i < |labels| ==> Lowered(labels[i])
    ensures Lowered(Join(labels))
  {
    if |labels| > 1 { JoinLowered(labels[1..]); }
  }

  /** Every parsed name is lower-case ASCII of at most 253 bytes, pointers or not. */
  lemma {:induction false} WalkBounded(p: Bytes, s: Scan)
    requires s.expanded == JoinedLength(s.labels) <= MAX_NAME_BYTES && forall i :: 0 <= i < |s.labels| ==> Lowered(s.labels[i])
    ensures Walk(p, s).Ok? ==> |Walk(p, s).value.0| <= MAX_NAME_BYTES && Lowered(Walk(p, s).value.0)
    decreases Offsets(p) - s.visited
  {
    match Step(p, s)
    case Done => JoinLength(s.labels); JoinLowered(s.labels);
    case Bad =>
    case More(t) =>
      assert Within(p, s.position) && s.position in Offsets(p) - s.visited;
      if t.labels != s.labels { assert t.labels[..|t.labels| - 1] == s.labels; }
      WalkBounded(p, t);
  }

  lemma NameBounded(p: Bytes, start: nat)
    ensures ParseName(p, start).Ok? ==> |ParseName(p, start).value.0| <= MAX_NAME_BYTES && Lowered(ParseName(p, start).value.0)
  {
    if start < |p| { WalkBounded(p, Begin(start)); }
  }

  // ---------------------------------------------------------------- canonical and wire

  predicate HostByte(b: U8) {
    48 <= b <= 57 || 65 <= b <= 90 || 97 <= b <= 122 || b == 45
  }

  predicate HostLabel(s: Bytes) {
    1 <= |s| <= 63 && s[0] != 45 && s[|s| - 1] != 45 && forall i :: 0 <= i < |s| ==> HostByte(s[i])
  }

  predicate CanonicalLabel(s: Bytes) {
    HostLabel(s) && forall i :: 0 <= i < |s| ==> !(65 <= s[i] <= 90)
  }

  function LowerLabels(labels: seq<Bytes>): (r: seq<Bytes>)
    ensures |r| == |labels| && forall i :: 0 <= i < |r| ==> r[i] == LowerAll(labels[i])
  {
    seq(|labels|, i requires 0 <= i < |labels| => LowerAll(labels[i]))
  }

  /** What `canonical_qname` accepts. */
  predicate Acceptable(qname: Bytes) {
    var name := TrimDots(qname);
    name != [] && |name| <= MAX_NAME_BYTES && Ascii(name) && forall i :: 0 <= i < |Split(name)| ==> HostLabel(Split(name)[i])
  }

  function CanonicalOf(qname: Bytes): Bytes {
    Join(LowerLabels(Split(TrimDots(qname))))
  }

  /** `canonical_qname`. */
  method Canonicalize(qname: Bytes) returns (r: Result<Bytes, DnsError>)
    ensures r.Ok? <==> Acceptable(qname)
    ensures r.Ok? ==> r.value == CanonicalOf(qname)
    ensures r.Err? ==> r.error == InvalidQueryName
  {
    var name := TrimDots(qname);
    if name == [] || |name| > MAX_NAME_BYTES || !Ascii(name) { return Err(InvalidQueryName); }
    var labels, canonical := Split(name), [];
    for i := 0 to |labels|
      invariant forall j :: 0 <= j < i ==> HostLabel(labels[j])
      invariant |canonical| == i && forall j :: 0 <= j < i ==> canonical[j] == LowerAll(labels[j])
    {
      if !HostLabel(labels[i]) { return Err(InvalidQueryName); }
      canonical := canonical + [LowerAll(labels[i])];
    }
    assert canonical == LowerLabels(labels);
    return Ok(Join(canonical));
  }

  /** Names that `canonical_qname` returns: lower-case host labels, at most 253 bytes. */
  ghost predicate IsCanonical(name: Bytes) {
    1 <= |name| <= MAX_NAME_BYTES && forall i :: 0 <= i < |Split(name)| ==> CanonicalLabel(Split(name)[i])
  }

  lemma {:induction false} LowerJoinLength(labels: seq<Bytes>)
    ensures |Join(LowerLabels(labels))| == |Join(labels)|
  {
    if |labels| > 1 {
      assert LowerLabels(labels)[1..] == LowerLabels(labels[1..]);
      LowerJoinLength(labels[1..]);
    }
  }

  lemma LowerHostLabel(l: Bytes)
    requires HostLabel(l)
    ensures CanonicalLabel(LowerAll(l))
  {
  }

  lemma CanonicalHasNoDot(l: Bytes)
    requires CanonicalLabel(l)
    ensures LowerAll(l) == l && Ascii(l) && DOT !in l
  {
  }

  lemma LowerLabelsCanonical(labels: seq<Bytes>)
    requires labels != [] && forall i :: 0 <= i < |labels| ==> HostLabel(labels[i])
    ensures forall i :: 0 <= i < |labels| ==> CanonicalLabel(LowerLabels(labels)[i])
    ensures Split(Join(LowerLabels(labels))) == LowerLabels(labels)
  {
    var lower := LowerLabels(labels);
    forall i | 0 <= i < |lower| ensures CanonicalLabel(lower[i]) && DOT !in lower[i] {
      LowerHostLabel(labels[i]);
      CanonicalHasNoDot(lower[i]);
    }
    SplitJoin(lower);
  }

  /** Canonical names are canonical, and keep their labels up to case. */
  lemma CanonicalResult(qname: Bytes)
    requires Acceptable(qname)
    ensures IsCanonical(CanonicalOf(qname)) && Split(CanonicalOf(qname)) == LowerLabels(Split(TrimDots(qname)))
  {
    var name := TrimDots(qname);
    LowerLabelsCanonical(Split(name));
    JoinSplit(name);
    LowerJoinLength(Split(name));
  }

  function LengthByte(l: Bytes): U8 {
    if |l| <= 255 then |l| else 255
  }

  function Chunk(l: Bytes): Bytes {
    [LengthByte(l)] + l
  }

  /** Length-prefixed labels, before the terminating zero. */
  function EncodeBody(labels: seq<Bytes>): Bytes {
    if labels == [] then [] else EncodeBody(labels[..|labels| - 1]) + Chunk(labels[|labels| - 1])
  }

  function EncodeLabels(labels: seq<Bytes>): Bytes {
    EncodeBody(labels) + [0]
  }

  lemma Associates(a: Bytes, b: Bytes, c: Bytes)
    ensures (a + b) + c == a + (b + c)
  {
  }

  lemma {:induction false} BodyFront(labels: seq<Bytes>)
    requires labels != []
    ensures EncodeBody(labels) == Chunk(labels[0]) + EncodeBody(labels[1..])
  {
    var init, rest, last := labels[..|labels| - 1], labels[1..], labels[|labels| - 1];
    if init != [] {
      BodyFront(init);
      assert init[1..] == rest[..|rest| - 1] && init[0] == labels[0] && rest[|rest| - 1] == last;
      Associates(Chunk(labels[0]), EncodeBody(init[1..]), Chunk(last));
    } else {
      assert rest == [];
      assert EncodeBody(init) == [] && EncodeBody(rest) == [];
      assert [] + Chunk(last) == Chunk(last) + [];
    }
  }

  predicate Short(labels: seq<Bytes>) {
    forall i :: 0 <= i < |labels| ==> |labels[i]| <= 255
  }

  method EncodeAll(labels: seq<Bytes>) returns (r: Result<Bytes, DnsError>)
    ensures r.Ok? <==> Short(labels)
    ensures r.Ok? ==> r.value == EncodeLabels(labels)
  {
    var out: Bytes := [];
    for i := 0 to |labels|
      invariant Short(labels[..i]) && out == EncodeBody(labels[..i])
    {
      if |labels[i]| > 255 { return Err(InvalidQueryName); }
      assert labels[..i + 1][..i] == labels[..i];
      out := out + ([|labels[i]|] + labels[i]);
    }
    assert labels[..|labels|] == labels;
    return Ok(out + [0]);
  }

  /** `encode_name`. */
  method EncodeName(name: Bytes) returns (r: Result<Bytes, DnsError>)
    ensures r.Ok? <==> Short(Split(name))
    ensures r.Ok? ==> r.value == EncodeLabels(Split(name))
  {
    r := EncodeAll(Split(name));
  }

  // ----------------------------------------------------------------------- round trip

  lemma {:induction false} JoinedLengthAppend(a: seq<Bytes>, b: seq<Bytes>)
    ensures JoinedLength(a) <= JoinedLength(a + b)
  {
    if b == [] {
      assert a + b == a;
    } else {
      assert (a + b)[..|a + b| - 1] == a + b[..|b| - 1];
      JoinedLengthAppend(a, b[..|b| - 1]);
    }
  }

  /** The packet holds `code` at `at`. */
  predicate HoldsAt(p: Bytes, at: nat, code: Bytes) {
    at + |code| <= |p| && p[at..at + |code|] == code
  }

  lemma HoldsHead(p: Bytes, at: nat, head: Bytes, tail: Bytes)
    requires HoldsAt(p, at, head + tail)
    ensures HoldsAt(p, at, head) && HoldsAt(p, at + |head|, tail)
  {
    var code := head + tail;
    assert p[at..at + |head|] == code[..|head|] == head;
    assert p[at + |head|..at + |code|] == code[|head|..] == tail;
  }

  /** Labels a packet can carry. */
  predicate WireLabel(l: Bytes) {
    1 <= |l| <= 63 && Ascii(l)
  }

  ghost predicate Wired(labels: seq<Bytes>) {
    forall i :: 0 <= i < |labels| ==> WireLabel(labels[i])
  }

  /** A scan after one more label. */
  function Passed(s: Scan, l: Bytes): Scan {
    s.(position := s.position + 1 + |l|, visited := s.visited + {s.position},
       expanded := JoinedLength(s.labels + [LowerAll(l)]), labels := s.labels + [LowerAll(l)])
  }

  lemma LabelStep(p: Bytes, s: Scan, l: Bytes)
    requires WireLabel(l) && HoldsAt(p, s.position, Chunk(l)) && s.position !in s.visited
    requires s.expanded == JoinedLength(s.labels) && JoinedLength(s.labels + [LowerAll(l)]) <= MAX_NAME_BYTES
    ensures Step(p, s) == More(Passed(s, l))
  {
    assert p[s.position] == Chunk(l)[0] == |l|;
    assert p[s.position + 1..s.position + 1 + |l|] == Chunk(l)[1..] == l;
    assert (s.labels + [LowerAll(l)])[..|s.labels|] == s.labels;
  }

  /** Before the encoded labels `rest` of a name that starts with `all`. */
  ghost predicate Standing(p: Bytes, s: Scan, rest: seq<Bytes>, all: seq<Bytes>) {
    && Wired(rest) && HoldsAt(p, s.position, EncodeBody(rest))
    && (forall v :: v in s.visited ==> v < s.position)
    && s.expanded == JoinedLength(s.labels) && all == s.labels + LowerLabels(rest) && JoinedLength(all) <= MAX_NAME_BYTES
  }

  /** The first label of an encoded name, and the encoded rest behind it. */
  lemma EncodedBytes(p: Bytes, at: nat, rest: seq<Bytes>)
    requires rest != [] && HoldsAt(p, at, EncodeBody(rest))
    ensures HoldsAt(p, at, Chunk(rest[0])) && HoldsAt(p, at + |Chunk(rest[0])|, EncodeBody(rest[1..]))
    ensures |EncodeBody(rest)| == |Chunk(rest[0])| + |EncodeBody(rest[1..])|
  {
    BodyFront(rest);
    HoldsHead(p, at, Chunk(rest[0]), EncodeBody(rest[1..]));
  }

  lemma LowerFirst(labels: seq<Bytes>, rest: seq<Bytes>)
    requires rest != []
    ensures (labels + [LowerAll(rest[0])]) + LowerLabels(rest[1..]) == labels + LowerLabels(rest)
  {
  }

  lemma NextLabel(labels: seq<Bytes>, rest: seq<Bytes>, all: seq<Bytes>)
    requires rest != [] && all == labels + LowerLabels(rest)
    ensures JoinedLength(labels + [LowerAll(rest[0])]) <= JoinedLength(all)
  {
    LowerFirst(labels, rest);
    JoinedLengthAppend(labels + [LowerAll(rest[0])], LowerLabels(rest[1..]));
  }

  lemma EncodedAdvance(p: Bytes, s: Scan, rest: seq<Bytes>, all: seq<Bytes>, t: Scan)
    requires rest != [] && Standing(p, s, rest, all) && t == Passed(s, rest[0])
    ensures Standing(p, t, rest[1..], all)
    ensures t.position + |EncodeBody(rest[1..])| == s.position + |EncodeBody(rest)|
  {
    assert t.position == s.position + |Chunk(rest[0])|;
    EncodedBytes(p, s.position, rest);
    LowerFirst(s.labels, rest);
  }

  lemma EncodedStep(p: Bytes, s: Scan, rest: seq<Bytes>, all: seq<Bytes>)
    requires rest != [] && Standing(p, s, rest, all)
    ensures Step(p, s) == More(Passed(s, rest[0]))
  {
    EncodedBytes(p, s.position, rest);
    NextLabel(s.labels, rest, all);
    LabelStep(p, s, rest[0]);
  }

  /** The offsets of the length bytes of encoded labels. */
  function LabelOffsets(at: nat, labels: seq<Bytes>): set<nat>
    decreases |labels|
  {
    if labels == [] then {} else {at} + LabelOffsets(at + 1 + |labels[0]|, labels[1..])
  }

  /** A scan after more labels. */
  function Through(s: Scan, rest: seq<Bytes>): Scan
    decreases |rest|
  {
    if rest == [] then s else Through(Passed(s, rest[0]), rest[1..])
  }

  /** Scanning encoded labels passes all of them. */
  lemma {:induction false} ScanEncoded(p: Bytes, s: Scan, rest: seq<Bytes>, all: seq<Bytes>)
    requires Standing(p, s, rest, all)
    ensures End(p, s) == End(p, Through(s, rest))
    decreases |rest|
  {
    if rest != [] {
      EncodedStep(p, s, rest, all);
      EncodedAdvance(p, s, rest, all, Passed(s, rest[0]));
      ScanEncoded(p, Passed(s, rest[0]), rest[1..], all);
    }
  }

  lemma {:induction false} ThroughPosition(s: Scan, rest: seq<Bytes>)
    ensures var t := Through(s, rest); t.position == s.position + |EncodeBody(rest)| && t.next == s.next && t.hops == s.hops
    decreases |rest|
  {
    if rest != [] {
      BodyFront(rest);
      ThroughPosition(Passed(s, rest[0]), rest[1..]);
    }
  }

  lemma {:induction false} ThroughLabels(s: Scan, rest: seq<Bytes>)
    requires s.expanded == JoinedLength(s.labels)
    ensures var t := Through(s, rest); t.labels == s.labels + LowerLabels(rest) && t.expanded == JoinedLength(t.labels)
    decreases |rest|
  {
    if rest != [] {
      ThroughLabels(Passed(s, rest[0]), rest[1..]);
      LowerFirst(s.labels, rest);
    } else {
      assert LowerLabels(rest) == [];
      NothingBefore(s.labels);
    }
  }

  lemma {:induction false} ThroughVisited(s: Scan, rest: seq<Bytes>)
    ensures Through(s, rest).visited == s.visited + LabelOffsets(s.position, rest)
    decreases |rest|
  {
    if rest != [] { ThroughVisited(Passed(s, rest[0]), rest[1..]); }
  }

  lemma {:induction false} OffsetsBelow(at: nat, labels: seq<Bytes>)
    ensures forall v :: v in LabelOffsets(at, labels) ==> at <= v < at + |EncodeBody(labels)|
    decreases |labels|
  {
    if labels != [] {
      BodyFront(labels);
      OffsetsBelow(at + 1 + |labels[0]|, labels[1..]);
    }
  }

  lemma NothingBefore(labels: seq<Bytes>)
    ensures [] + labels == labels && labels + [] == labels
  {
  }

  lemma BeginStanding(p: Bytes, at: nat, labels: seq<Bytes>)
    requires HoldsAt(p, at, EncodeBody(labels)) && JoinedLength(LowerLabels(labels)) <= MAX_NAME_BYTES && Wired(labels)
    ensures Standing(p, Begin(at), labels, LowerLabels(labels))
  {
    NothingBefore(LowerLabels(labels));
  }

  /** Encoded labels at the start of a name. */
  lemma ScanBody(p: Bytes, at: nat, labels: seq<Bytes>) returns (t: Scan)
    requires HoldsAt(p, at, EncodeBody(labels)) && JoinedLength(LowerLabels(labels)) <= MAX_NAME_BYTES
    requires Wired(labels)
    ensures End(p, Begin(at)) == End(p, t) && t.labels == LowerLabels(labels) && t.position == at + |EncodeBody(labels)| && t.position !in t.visited
    ensures t.next.None? && t.hops == 0 && t.expanded == JoinedLength(t.labels) && t.visited == LabelOffsets(at, labels)
  {
    BeginStanding(p, at, labels);
    ScanEncoded(p, Begin(at), labels, LowerLabels(labels));
    t := Through(Begin(at), labels);
    ThroughPosition(Begin(at), labels);
    ThroughLabels(Begin(at), labels);
    ThroughVisited(Begin(at), labels);
    OffsetsBelow(at, labels);
    NothingBefore(LowerLabels(labels));
  }

  lemma EndsHere(p: Bytes, t: Scan)
    requires HoldsAt(p, t.position, [0]) && t.position !in t.visited
    ensures End(p, t) == Some(t)
  {
    assert p[t.position] == [0][0];
  }

  lemma CanonicalLowered(labels: seq<Bytes>)
    requires forall i :: 0 <= i < |labels| ==> CanonicalLabel(labels[i])
    ensures LowerLabels(labels) == labels && Wired(labels)
  {
    forall i | 0 <= i < |labels| ensures WireLabel(labels[i]) && LowerAll(labels[i]) == labels[i] {
      CanonicalHasNoDot(labels[i]);
    }
  }

  /** Any encoded labels parse back in lower case. */
  lemma LowerRoundTrip(p: Bytes, at: nat, labels: seq<Bytes>)
    requires HoldsAt(p, at, EncodeLabels(labels)) && Wired(labels) && JoinedLength(LowerLabels(labels)) <= MAX_NAME_BYTES
    ensures ParseName(p, at) == Ok((Join(LowerLabels(labels)), at + |EncodeLabels(labels)|))
  {
    HoldsHead(p, at, EncodeBody(labels), [0]);
    var t := ScanBody(p, at, labels);
    EndsHere(p, t);
  }

  lemma LabelsRoundTrip(p: Bytes, at: nat, labels: seq<Bytes>)
    requires HoldsAt(p, at, EncodeLabels(labels)) && JoinedLength(labels) <= MAX_NAME_BYTES
    requires forall i :: 0 <= i < |labels| ==> CanonicalLabel(labels[i])
    ensures ParseName(p, at) == Ok((Join(labels), at + |EncodeLabels(labels)|))
  {
    CanonicalLowered(labels);
    LowerRoundTrip(p, at, labels);
  }

  lemma CanonicalParts(name: Bytes, labels: seq<Bytes>)
    requires IsCanonical(name) && labels == Split(name)
    ensures Join(labels) == name && JoinedLength(labels) <= MAX_NAME_BYTES
    ensures forall i :: 0 <= i < |labels| ==> CanonicalLabel(labels[i])
  {
    JoinSplit(name);
    JoinLength(labels);
  }

  /** An encoded canonical name, wherever it stands in a packet, parses back to
      itself, and the cursor ends just past it. */
  lemma NameRoundTrip(p: Bytes, at: nat, name: Bytes)
    requires IsCanonical(name) && HoldsAt(p, at, EncodeLabels(Split(name)))
    ensures ParseName(p, at) == Ok((name, at + |EncodeLabels(Split(name))|))
  {
    CanonicalParts(name, Split(name));
    LabelsRoundTrip(p, at, Split(name));
  }

  // ------------------------------------------------------------------ compressed names

  lemma {:induction false} EndGrows(p: Bytes, s: Scan)
    requires End(p, s).Some?
    ensures var e := End(p, s).value; s.visited <= e.visited && s.hops <= e.hops && s.labels <= e.labels
    ensures s.position < |p| && s.position !in s.visited && s.position in End(p, s).value.visited + {End(p, s).value.position}
    decreases Offsets(p) - s.visited
  {
    match Step(p, s)
    case More(t) =>
      assert Within(p, s.position) && s.position in Offsets(p) - s.visited;
      EndGrows(p, t);
    case _ =>
  }

  /** `t` stands where `s` does, with more labels, offsets and hops behind it. */
  ghost predicate Behind(s: Scan, t: Scan, before: seq<Bytes>, seen: set<nat>, hops: nat) {
    && t.position == s.position && t.labels == before + s.labels && t.visited == seen + s.visited && t.hops == hops + s.hops <= MAX_POINTER_HOPS
    && t.next.Some? && s.expanded == JoinedLength(s.labels) && t.expanded == JoinedLength(t.labels) <= MAX_NAME_BYTES
  }

  /** What is behind leaves room for the rest of a scan from `s` to `e`. */
  ghost predicate Room(s: Scan, e: Scan, before: seq<Bytes>, seen: set<nat>, hops: nat) {
    && seen !! (e.visited + {e.position}) - s.visited
    && hops + e.hops <= MAX_POINTER_HOPS && JoinedLength(before + e.labels) <= MAX_NAME_BYTES
  }

  lemma AppendedLength(labels: seq<Bytes>, l: Bytes)
    ensures JoinedLength(labels + [l]) == JoinedLength(labels) + |l| + (if labels != [] then 1 else 0)
  {
    assert (labels + [l])[..|labels|] == labels;
  }

  lemma Continued<T>(labels: seq<T>, l: T, all: seq<T>)
    requires labels + [l] <= all
    ensures all == (labels + [l]) + all[|labels| + 1..]
  {
  }

  lemma Regrouped<T>(a: seq<T>, b: seq<T>, c: seq<T>, d: seq<T>)
    ensures a + (b + c) == (a + b) + c && a + ((b + c) + d) == ((a + b) + c) + d
  {
  }

  lemma LengthBehind(before: seq<Bytes>, labels: seq<Bytes>, l: Bytes, all: seq<Bytes>)
    requires labels + [l] <= all
    ensures before + (labels + [l]) == (before + labels) + [l]
    ensures JoinedLength((before + labels) + [l]) <= JoinedLength(before + all)
  {
    var tail := all[|labels| + 1..];
    Continued(labels, l, all);
    Regrouped(before, labels, [l], tail);
    JoinedLengthAppend((before + labels) + [l], tail);
  }

  lemma LabelTurn(p: Bytes, s: Scan, l: Bytes)
    requires s.position < |p| && s.position !in s.visited && 0 < p[s.position] < 0x40 && s.expanded == JoinedLength(s.labels)
    requires s.position + 1 + p[s.position] <= |p| && var bytes := p[s.position + 1..s.position + 1 + p[s.position]]; Ascii(bytes) && l == LowerAll(bytes)
    ensures Step(p, s) == if JoinedLength(s.labels + [l]) > MAX_NAME_BYTES then Bad else More(Passed(s, l).(labels := s.labels + [l], expanded := JoinedLength(s.labels + [l])))
  {
    AppendedLength(s.labels, l);
  }

  /** A label ahead of both scans. */
  lemma LabelBehind(p: Bytes, s: Scan, t: Scan, before: seq<Bytes>, seen: set<nat>, hops: nat, e: Scan)
    requires Behind(s, t, before, seen, hops) && s.position !in seen && s.position < |p| && 0 < p[s.position] < 0x40
    requires Step(p, s).More? && Step(p, s).scan.labels <= e.labels
    ensures Step(p, s).scan.expanded == JoinedLength(Step(p, s).scan.labels)
    ensures JoinedLength(before + e.labels) <= MAX_NAME_BYTES ==> Step(p, t).More?
    ensures Step(p, t).More? ==> Behind(Step(p, s).scan, Step(p, t).scan, before, seen, hops)
    ensures !Step(p, t).More? ==> Step(p, t).Bad?
  {
    var l := LowerAll(p[s.position + 1..s.position + 1 + p[s.position]]);
    LabelTurn(p, s, l);
    LabelTurn(p, t, l);
    LengthBehind(before, s.labels, l, e.labels);
  }

  /** A pointer ahead of both scans. */
  lemma PointerBehind(p: Bytes, s: Scan, t: Scan, before: seq<Bytes>, seen: set<nat>, hops: nat)
    requires Behind(s, t, before, seen, hops) && s.position !in seen && s.position < |p| && p[s.position] >= 0xc0 && Step(p, s).More?
    ensures Step(p, t).More? || Step(p, t).Bad?
    ensures Step(p, t).More? <==> hops + Step(p, s).scan.hops <= MAX_POINTER_HOPS
    ensures Step(p, t).More? ==> Behind(Step(p, s).scan, Step(p, t).scan, before, seen, hops)
  {
  }

  lemma RoomNext(s: Scan, u: Scan, e: Scan, before: seq<Bytes>, seen: set<nat>, hops: nat)
    requires u.visited == s.visited + {s.position} && s.position !in seen
    ensures Room(s, e, before, seen, hops) <==> Room(u, e, before, seen, hops)
  {
  }

  lemma StepBehind(p: Bytes, s: Scan, t: Scan, before: seq<Bytes>, seen: set<nat>, hops: nat, e: Scan)
    requires Behind(s, t, before, seen, hops) && s.position !in seen && Step(p, s).More?
    requires Step(p, s).scan.labels <= e.labels && Step(p, s).scan.hops <= e.hops
    ensures Step(p, t).More? || (Step(p, t).Bad? && !Room(s, e, before, seen, hops))
    ensures Step(p, t).More? ==> Behind(Step(p, s).scan, Step(p, t).scan, before, seen, hops)
  {
    if p[s.position] < 0x40 {
      LabelBehind(p, s, t, before, seen, hops, e);
    } else {
      PointerBehind(p, s, t, before, seen, hops);
    }
  }

  lemma SeenBehind(p: Bytes, s: Scan, t: Scan, before: seq<Bytes>, seen: set<nat>, hops: nat, e: Scan)
    requires Behind(s, t, before, seen, hops) && End(p, s) == Some(e) && s.position in seen
    ensures End(p, t).None? && !Room(s, e, before, seen, hops)
  {
    EndGrows(p, s);
    assert s.position in (e.visited + {e.position}) - s.visited;
  }

  lemma DoneBehind(p: Bytes, s: Scan, t: Scan, before: seq<Bytes>, seen: set<nat>, hops: nat)
    requires Behind(s, t, before, seen, hops) && Step(p, s).Done? && s.position !in seen
    ensures End(p, t) == Some(t) && Room(s, s, before, seen, hops)
  {
  }

  /** A scan with more behind it ends if and only if there is room, and then with
      the labels behind it in front. */
  lemma {:induction false} EndBehind(p: Bytes, s: Scan, t: Scan, before: seq<Bytes>, seen: set<nat>, hops: nat, e: Scan)
    requires Behind(s, t, before, seen, hops) && End(p, s) == Some(e)
    ensures End(p, t).Some? <==> Room(s, e, before, seen, hops)
    ensures End(p, t).Some? ==> End(p, t).value.labels == before + e.labels && End(p, t).value.next == t.next
    decreases Offsets(p) - s.visited
  {
    if s.position in seen {
      SeenBehind(p, s, t, before, seen, hops, e);
    } else if Step(p, s).Done? {
      DoneBehind(p, s, t, before, seen, hops);
    } else {
      var u := Step(p, s).scan;
      assert Within(p, s.position) && s.position in Offsets(p) - s.visited;
      EndGrows(p, u);
      StepBehind(p, s, t, before, seen, hops, e);
      RoomNext(s, u, e, before, seen, hops);
      if Step(p, t).More? { EndBehind(p, u, Step(p, t).scan, before, seen, hops, e); }
    }
  }

  function Pointer(target: nat): Bytes
    requires target < 0x4000
  {
    [0xc0 + target / 0x100, target % 0x100]
  }

  lemma PointerStep(p: Bytes, s: Scan, target: nat)
    requires target < 0x4000 && target < |p| && HoldsAt(p, s.position, Pointer(target))
    requires s.position !in s.visited && s.hops < MAX_POINTER_HOPS && s.next.None?
    ensures Step(p, s) == More(s.(position := target, visited := s.visited + {s.position}, hops := s.hops + 1, next := Some(s.position + 2)))
  {
    assert p[s.position] == Pointer(target)[0];
    assert p[s.position + 1] == p[s.position..s.position + 2][1] == Pointer(target)[1];
  }

  /** The offsets at which a compressed name has a length byte or its pointer. */
  function OwnOffsets(at: nat, labels: seq<Bytes>): set<nat> {
    LabelOffsets(at, labels) + {at + |EncodeBody(labels)|}
  }

  /** The scan of a compressed name, where it arrives at the target. */
  lemma ReachTarget(p: Bytes, at: nat, labels: seq<Bytes>, target: nat) returns (u: Scan)
    requires target < 0x4000 && target < |p| && HoldsAt(p, at, EncodeBody(labels) + Pointer(target))
    requires Wired(labels) && JoinedLength(LowerLabels(labels)) <= MAX_NAME_BYTES
    ensures End(p, Begin(at)) == End(p, u) && Behind(Begin(target), u, LowerLabels(labels), OwnOffsets(at, labels), 1)
    ensures u.next == Some(at + |EncodeBody(labels)| + 2)
  {
    HoldsHead(p, at, EncodeBody(labels), Pointer(target));
    var t := ScanBody(p, at, labels);
    PointerStep(p, t, target);
    u := Step(p, t).scan;
    assert u.labels == LowerLabels(labels) + [];
    assert u.visited == OwnOffsets(at, labels) + {};
  }

  /** Labels followed by a pointer to a name that parses, behind or ahead, mean those
      labels and then that name's, if and only if the target's scan does not come back,
      takes less than all hops, and the whole fits. The cursor ends after the pointer. */
  lemma CompressedName(p: Bytes, at: nat, labels: seq<Bytes>, target: nat, e: Scan)
    requires target < 0x4000 && target < |p| && HoldsAt(p, at, EncodeBody(labels) + Pointer(target)) && End(p, Begin(target)) == Some(e)
    requires Wired(labels) && JoinedLength(LowerLabels(labels)) <= MAX_NAME_BYTES
    ensures ParseName(p, at).Ok? <==>
            OwnOffsets(at, labels) !! e.visited + {e.position} && e.hops < MAX_POINTER_HOPS && JoinedLength(LowerLabels(labels) + e.labels) <= MAX_NAME_BYTES
    ensures ParseName(p, at).Ok? ==> ParseName(p, at).value == (Join(LowerLabels(labels) + e.labels), at + |EncodeBody(labels)| + 2)
  {
    var u := ReachTarget(p, at, labels, target);
    EndBehind(p, Begin(target), u, LowerLabels(labels), OwnOffsets(at, labels), 1, e);
    assert (e.visited + {e.position}) - Begin(target).visited == e.visited + {e.position};
  }

  lemma {:induction false} JoinConcat(a: seq<Bytes>, b: seq<Bytes>)
    requires a != [] && b != []
    ensures Join(a + b) == Join(a) + [DOT] + Join(b)
  {
    assert (a + b)[0] == a[0] && (a + b)[1..] == a[1..] + b;
    if |a| == 1 {
      assert a[1..] + b == b;
    } else {
      JoinConcat(a[1..], b);
    }
  }

  /** The same in text: the labels, a dot, and the name at the target. */
  lemma CompressedText(p: Bytes, at: nat, labels: seq<Bytes>, target: nat, e: Scan)
    requires target < 0x4000 && target < |p| && HoldsAt(p, at, EncodeBody(labels) + Pointer(target)) && End(p, Begin(target)) == Some(e)
    requires Wired(labels) && JoinedLength(LowerLabels(labels)) <= MAX_NAME_BYTES
    requires labels != [] && e.labels != [] && ParseName(p, at).Ok?
    ensures ParseName(p, target).Ok? && ParseName(p, at).value.0 == Join(LowerLabels(labels)) + [DOT] + ParseName(p, target).value.0
  {
    CompressedName(p, at, labels, target, e);
    JoinConcat(LowerLabels(labels), e.labels);
  }

  // ------------------------------------------------------------------ names and labels

  ghost predicate DotFree(labels: seq<Bytes>) {
    forall i :: 0 <= i < |labels| ==> DOT !in labels[i]
  }

  /** No parsed label is empty. */
  lemma {:induction false} LabelsNonEmpty(p: Bytes, s: Scan)
    requires End(p, s).Some? && forall i :: 0 <= i < |s.labels| ==> s.labels[i] != []
    ensures forall i :: 0 <= i < |End(p, s).value.labels| ==> End(p, s).value.labels[i] != []
    decreases Offsets(p) - s.visited
  {
    match Step(p, s)
    case More(t) =>
      assert Within(p, s.position) && s.position in Offsets(p) - s.visited;
      LabelsNonEmpty(p, t);
    case _ =>
  }

  /** The labels of a parsed name are those between its dots if and only if none of
      them holds a dot. */
  lemma ParsedLabels(p: Bytes, start: nat, e: Scan)
    requires End(p, Begin(start)) == Some(e) && e.labels != []
    ensures ParseName(p, start).Ok? && (Split(ParseName(p, start).value.0) == e.labels <==> DotFree(e.labels))
  {
    EndGrows(p, Begin(start));
    SplitJoinExact(e.labels);
  }

  /** Of names without dotted labels, equal ones have equal labels. */
  lemma EqualNames(p: Bytes, a: nat, d: Scan, q: Bytes, b: nat, e: Scan)
    requires End(p, Begin(a)) == Some(d) && End(q, Begin(b)) == Some(e) && DotFree(d.labels) && DotFree(e.labels)
    ensures Walk(p, Begin(a)).value.0 == Walk(q, Begin(b)).value.0 <==> d.labels == e.labels
  {
    LabelsNonEmpty(p, Begin(a));
    LabelsNonEmpty(q, Begin(b));
    if d.labels != [] { SplitJoin(d.labels); }
    if e.labels != [] { SplitJoin(e.labels); }
    assert d.labels != [] ==> Join(d.labels) != [];
    assert e.labels != [] ==> Join(e.labels) != [];
  }

  /** A packet with the one label `a.b` and, behind it, the labels `a` and `b`. */
  const DOTTED: Bytes := [3, 97, 46, 98, 0, 1, 97, 1, 98, 0]

  /** Equal names, different labels. */
  lemma DottedLabel()
    ensures ParseName(DOTTED, 0) == Ok(([97, DOT, 98], 5)) && ParseName(DOTTED, 5) == Ok(([97, DOT, 98], 10))
    ensures End(DOTTED, Begin(0)).Some? && End(DOTTED, Begin(5)).Some?
    ensures End(DOTTED, Begin(0)).value.labels == [[97, DOT, 98]] && End(DOTTED, Begin(5)).value.labels == [[97], [98]]
  {
    OneLabel();
    TwoLabels();
  }

  lemma OneLabel()
    ensures End(DOTTED, Begin(0)) == Some(Scan(4, [[97, DOT, 98]], None, {0}, 3, 0))
  {
    var s := Scan(4, [[97, DOT, 98]], None, {0}, 3, 0);
    assert DOTTED[1..4] == [97, DOT, 98] && LowerAll([97, DOT, 98]) == [97, DOT, 98];
    assert Step(DOTTED, Begin(0)) == More(s);
  }

  lemma TwoLabels()
    ensures End(DOTTED, Begin(5)) == Some(Scan(9, [[97], [98]], None, {5, 7}, 3, 0)) && Join([[97], [98]]) == [97, DOT, 98]
  {
    var s, t := Scan(7, [[97]], None, {5}, 1, 0), Scan(9, [[97], [98]], None, {5, 7}, 3, 0);
    assert DOTTED[6..7] == [97] && LowerAll([97]) == [97];
    assert Step(DOTTED, Begin(5)) == More(s);
    assert DOTTED[8..9] == [98] && LowerAll([98]) == [98] && [[97]] + [[98]] == [[97], [98]];
    assert Step(DOTTED, s) == More(t);
    assert Join([[97], [98]]) == [97] + [DOT] + Join([[98]]);
  }

  /** A pointer may lead ahead. */
  lemma PointerAhead()
    ensures ParseName([0xc0, 2, 0], 0) == Ok(([], 2))
  {
    var p: Bytes := [0xc0, 2, 0];
    var s := Scan(2, [], Some(2), {0}, 0, 1);
    assert Step(p, Begin(0)) == More(s) && Step(p, s) == Done;
  }
}
