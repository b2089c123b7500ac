/** Resource records, the CNAME chain and whole responses. */
module DnsAnswers {
  import opened Prelude
  import opened Ordered
  import opened Names
  import opened EndpointPlan
  import opened DnsNames

  const QTYPE_A: U16 := 1
  const QTYPE_CNAME: U16 := 5
  const QTYPE_SOA: U16 := 6
  const QCLASS_IN: U16 := 1

  function ReadU16(p: Bytes, at: nat): Result<U16, DnsError> {
    if at + 2 > |p| then Err(Malformed) else
      var high: nat, low: nat := p[at], p[at + 1];
      Ok(high * 0x100 + low)
  }

  function ReadU32(p: Bytes, at: nat): Result<U32, DnsError> {
    if at + 4 > |p| then Err(Malformed) else
      var high, low := ReadU16(p, at), ReadU16(p, at + 2);
      Ok((high.value as nat) * 0x1_0000 + low.value)
  }

  datatype Rr = Rr(owner: Bytes, rrType: U16, rrClass: U16, ttl: U32, start: nat, end: nat)

  function ParseRr(p: Bytes, at: nat): Result<(Rr, nat), DnsError> {
    var name := ParseName(p, at);
    if name.Err? then Err(name.error)
    else
      var cursor := name.value.1;
      var rrType, rrClass, ttl, length := ReadU16(p, cursor), ReadU16(p, cursor + 2), ReadU32(p, cursor + 4), ReadU16(p, cursor + 8);
      if rrType.Err? || rrClass.Err? || ttl.Err? || length.Err? then Err(Malformed)
      else
        var end := cursor + 10 + length.value;
        if end > |p| then Err(Malformed)
        else Ok((Rr(name.value.0, rrType.value, rrClass.value, ttl.value, cursor + 10, end), end))
  }

  /** A record lies strictly after its start and inside the packet. */
  lemma RrCursor(p: Bytes, at: nat)
    ensures ParseRr(p, at).Ok? ==>
              var r := ParseRr(p, at).value; at < r.0.start <= r.0.end == r.1 <= |p| && |r.0.owner| <= MAX_NAME_BYTES
  {
    NameCursor(p, at);
    NameBounded(p, at);
  }

  // -------------------------------------------------------------------------- facts

  /** What one answer record says. */
  datatype Fact = Address(owner: Bytes, ip: Ipv4, ttl: U32) | Alias(owner: Bytes, target: Bytes, ttl: U32)

  /** `None` for records of other classes and types. */
  function FactOf(p: Bytes, rr: Rr): Result<Option<Fact>, DnsError> {
    if rr.rrClass != QCLASS_IN then Ok(None)
    else if rr.rrType == QTYPE_A then
      if rr.end != rr.start + 4 || ReadU32(p, rr.start).Err? then Err(Malformed)
      else Ok(Some(Address(rr.owner, ReadU32(p, rr.start).value, rr.ttl)))
    else if rr.rrType == QTYPE_CNAME then
      var target := ParseName(p, rr.start);
      if target.Err? || target.value.1 != rr.end then Err(Malformed)
      else Ok(Some(Alias(rr.owner, target.value.0, rr.ttl)))
    else Ok(None)
  }

  ghost predicate AllReadable(p: Bytes, answers: seq<Rr>) {
    forall i :: 0 <= i < |answers| ==> FactOf(p, answers[i]).Ok?
  }

  ghost function Facts(p: Bytes, answers: seq<Rr>): set<Fact> {
    set i | 0 <= i < |answers| && FactOf(p, answers[i]).Ok? && FactOf(p, answers[i]).value.Some? :: FactOf(p, answers[i]).value.value
  }

  ghost predicate HasAlias(facts: set<Fact>, owner: Bytes) {
    exists f :: f in facts && f.Alias? && f.owner == owner
  }

  ghost predicate HasAddress(facts: set<Fact>, owner: Bytes) {
    exists f :: f in facts && f.Address? && f.owner == owner
  }

  ghost predicate OneTarget(facts: set<Fact>) {
    forall f, g :: f in facts && g in facts && f.Alias? && g.Alias? && f.owner == g.owner ==> f.target == g.target
  }

  /** No owner has two targets, or both a target and addresses. */
  ghost predicate Consistent(facts: set<Fact>) {
    OneTarget(facts) && forall f, g :: f in facts && g in facts && f.Alias? && g.Address? ==> f.owner != g.owner
  }

  ghost predicate IsLeast(s: set<U32>, r: U32) {
    r in s && forall y :: y in s ==> r <= y
  }

  lemma {:induction false} LeastExists(s: set<U32>)
    requires s != {}
    ensures exists r :: IsLeast(s, r)
  {
    var x :| x in s;
    if s == {x} {
      assert IsLeast(s, x);
    } else {
      LeastExists(s - {x});
      var m :| IsLeast(s - {x}, m);
      assert forall y :: y in s ==> y == x || y in s - {x};
      assert IsLeast(s, if x <= m then x else m);
    }
  }

  ghost function Least(s: set<U32>): (r: U32)
    requires s != {}
    ensures IsLeast(s, r)
  {
    LeastExists(s);
    var r :| IsLeast(s, r);
    r
  }

  ghost function AliasTtls(facts: set<Fact>, owner: Bytes): set<U32> {
    set f | f in facts && f.Alias? && f.owner == owner :: f.ttl
  }

  ghost function AddressTtls(facts: set<Fact>, owner: Bytes, ip: Ipv4): set<U32> {
    set f | f in facts && f.Address? && f.owner == owner && f.ip == ip :: f.ttl
  }

  ghost function AddressIps(facts: set<Fact>, owner: Bytes): set<Ipv4> {
    set f | f in facts && f.Address? && f.owner == owner :: f.ip
  }

  /** The target of `owner` and the lowest TTL among its alias records. */
  ghost function NextName(facts: set<Fact>, owner: Bytes): (r: (Bytes, U32))
    requires HasAlias(facts, owner)
    ensures exists f :: f in facts && f.Alias? && f.owner == owner && f.target == r.0
    ensures IsLeast(AliasTtls(facts, owner), r.1)
  {
    var f :| f in facts && f.Alias? && f.owner == owner;
    assert f.ttl in AliasTtls(facts, owner);
    (f.target, Least(AliasTtls(facts, owner)))
  }

  // -------------------------------------------------------------------------- chains

  /** Where the chain from `current` ends and the lowest alias TTL on the way. */
  ghost function Trail(facts: set<Fact>, current: Bytes, path: U32, depth: nat, seen: set<Bytes>, max: nat): Result<Option<(Bytes, U32)>, DnsError>
    requires depth <= max
    decreases max - depth
  {
    if current in seen then Err(Malformed)
    else if HasAddress(facts, current) then Ok(Some((current, path)))
    else if !HasAlias(facts, current) then Ok(None)
    else if depth == max then Err(Malformed)
    else
      var next := NextName(facts, current);
      Trail(facts, next.0, Min(path, next.1), depth + 1, seen + {current}, max)
  }

  datatype ARecord = ARecord(ip: Ipv4, ttl: U32)

  /** The addresses of `end` in order, each with the lowest TTL of its records and the path. */
  ghost function Records(facts: set<Fact>, end: Bytes, path: U32): (r: seq<ARecord>)
  {
    var ips := SortedIps(AddressIps(facts, end));
    seq(|ips|, i requires 0 <= i < |ips| => ARecord(ips[i], RecordTtl(facts, end, ips[i], path)))
  }

  ghost function RecordTtl(facts: set<Fact>, owner: Bytes, ip: Ipv4, path: U32): U32 {
    if AddressTtls(facts, owner, ip) == {} then path else Min(path, Least(AddressTtls(facts, owner, ip)))
  }

  /** The answer that a set of facts gives to a query. */
  ghost function Follow(facts: set<Fact>, qname: Bytes, maxDepth: nat, maxAddresses: nat): Result<seq<ARecord>, DnsError> {
    if !Consistent(facts) then Err(Malformed)
    else
      match Trail(facts, qname, U32_MAX, 0, {}, maxDepth)
      case Err(e) => Err(Malformed)
      case Ok(None) => Ok([])
      case Ok(Some(end)) =>
        if |Records(facts, end.0, end.1)| > maxAddresses then Err(Malformed) else Ok(Records(facts, end.0, end.1))
  }

  /** The answer depends on the set of facts only: any reordering or repetition of
      the records gives the same one. */
  ghost function Answer(p: Bytes, answers: seq<Rr>, qname: Bytes, maxDepth: nat, maxAddresses: nat): Result<seq<ARecord>, DnsError> {
    if !AllReadable(p, answers) then Err(Malformed) else Follow(Facts(p, answers), qname, maxDepth, maxAddresses)
  }

  lemma OrderIrrelevant(p: Bytes, a: seq<Rr>, b: seq<Rr>, qname: Bytes, maxDepth: nat, maxAddresses: nat)
    requires forall rr :: rr in a <==> rr in b
    ensures Answer(p, a, qname, maxDepth, maxAddresses) == Answer(p, b, qname, maxDepth, maxAddresses)
  {
    SameFacts(p, a, b);
    SameFacts(p, b, a);
    assert Facts(p, a) == Facts(p, b);
  }

  lemma SameFacts(p: Bytes, a: seq<Rr>, b: seq<Rr>)
    requires forall rr :: rr in a ==> rr in b
    ensures AllReadable(p, b) ==> AllReadable(p, a)
    ensures Facts(p, a) <= Facts(p, b)
  {
    forall i | 0 <= i < |a| ensures exists j :: 0 <= j < |b| && b[j] == a[i] {
      assert a[i] in b;
    }
  }

  // ----------------------------------------------------------------- meaning of a chain

  ghost predicate Leads(facts: set<Fact>, from: Bytes, to: Bytes) {
    exists f :: f in facts && f.Alias? && f.owner == from && f.target == to
  }

  /** A chain of aliases from the query name, without repetition. */
  ghost predicate IsChain(facts: set<Fact>, names: seq<Bytes>) {
    && names != []
    && (forall i, j :: 0 <= i < j < |names| ==> names[i] != names[j])
    && (forall i :: 0 <= i < |names| - 1 ==> Leads(facts, names[i], names[i + 1]))
  }

  ghost predicate PathTtl(facts: set<Fact>, names: seq<Bytes>, path: U32) {
    && (forall f, i :: 0 <= i < |names| - 1 && f in facts && f.Alias? && f.owner == names[i] ==> path <= f.ttl)
    && (path == U32_MAX || exists f, i :: 0 <= i < |names| - 1 && f in facts && f.Alias? && f.owner == names[i] && f.ttl == path)
  }

  lemma ChainNext(facts: set<Fact>, names: seq<Bytes>, path: U32)
    requires IsChain(facts, names) && PathTtl(facts, names, path) && HasAlias(facts, names[|names| - 1])
    requires NextName(facts, names[|names| - 1]).0 !in names
    ensures var next := NextName(facts, names[|names| - 1]);
            IsChain(facts, names + [next.0]) && PathTtl(facts, names + [next.0], Min(path, next.1))
  {
    var last, next := names[|names| - 1], NextName(facts, names[|names| - 1]);
    var more, least := names + [next.0], Min(path, next.1);
    forall i | 0 <= i < |more| - 1 ensures Leads(facts, more[i], more[i + 1]) {
      assert i < |names| - 1 ==> Leads(facts, names[i], names[i + 1]);
    }
    forall f, i | 0 <= i < |more| - 1 && f in facts && f.Alias? && f.owner == more[i] ensures least <= f.ttl {
      if i == |names| - 1 { assert f.ttl in AliasTtls(facts, last); }
    }
    if least != path {
      var f :| f in facts && f.Alias? && f.owner == last && f.ttl == next.1;
      assert f.owner == more[|names| - 1];
    } else if path != U32_MAX {
      var f, i :| 0 <= i < |names| - 1 && f in facts && f.Alias? && f.owner == names[i] && f.ttl == path;
      assert f.owner == more[i];
    }
  }

  /** A successful trail is a repetition-free chain of aliases no longer than the
      bound, which stops where there are addresses, or nothing. */
  lemma {:induction false} TrailMeaning(facts: set<Fact>, names: seq<Bytes>, path: U32, depth: nat, max: nat) returns (all: seq<Bytes>)
    requires IsChain(facts, names) && PathTtl(facts, names, path) && |names| == depth + 1 && depth <= max
    requires Trail(facts, names[depth], path, depth, Elements(names[..depth]), max).Ok?
    ensures IsChain(facts, all) && all[0] == names[0] && |all| <= max + 1
    ensures var r := Trail(facts, names[depth], path, depth, Elements(names[..depth]), max).value;
            if r.Some? then r.value.0 == all[|all| - 1] && HasAddress(facts, r.value.0) && PathTtl(facts, all, r.value.1)
            else !HasAddress(facts, all[|all| - 1]) && !HasAlias(facts, all[|all| - 1])
    decreases max - depth
  {
    var current, seen := names[depth], Elements(names[..depth]);
    if HasAddress(facts, current) || !HasAlias(facts, current) {
      all := names;
    } else {
      var next := NextName(facts, current);
      assert names[..depth + 1] == names && names == names[..depth] + [current];
      assert seen + {current} == Elements(names);
      TrailStops(facts, next.0, Min(path, next.1), depth + 1, seen + {current}, max);
      ChainNext(facts, names, path);
      var more := names + [next.0];
      assert more[..depth + 1] == names;
      all := TrailMeaning(facts, more, Min(path, next.1), depth + 1, max);
    }
  }

  lemma TrailStops(facts: set<Fact>, current: Bytes, path: U32, depth: nat, seen: set<Bytes>, max: nat)
    requires depth <= max && Trail(facts, current, path, depth, seen, max).Ok?
    ensures current !in seen
  {
  }

  ghost predicate ListsIp(rs: seq<ARecord>, ip: Ipv4) {
    exists i :: 0 <= i < |rs| && rs[i].ip == ip
  }

  lemma RecordsMeaning(facts: set<Fact>, end: Bytes, path: U32, rs: seq<ARecord>)
    requires rs == Records(facts, end, path) && HasAddress(facts, end)
    ensures rs != []
    ensures forall i, j :: 0 <= i < j < |rs| ==> rs[i].ip < rs[j].ip
    ensures forall ip :: ip in AddressIps(facts, end) <==> ListsIp(rs, ip)
    ensures forall i :: 0 <= i < |rs| ==> AddressTtls(facts, end, rs[i].ip) != {} && rs[i].ttl == Min(path, Least(AddressTtls(facts, end, rs[i].ip)))
  {
    var ips := SortedIps(AddressIps(facts, end));
    assert |rs| == |ips| && forall i :: 0 <= i < |ips| ==> rs[i].ip == ips[i];
    assert forall i, j :: 0 <= i < j < |ips| ==> IpRank(ips[i]) < IpRank(ips[j]);
    var f :| f in facts && f.Address? && f.owner == end;
    assert f.ip in AddressIps(facts, end) && f.ip in ips;
    forall i | 0 <= i < |rs| ensures AddressTtls(facts, end, rs[i].ip) != {} {
      assert ips[i] in ips && ips[i] in AddressIps(facts, end);
      var g :| g in facts && g.Address? && g.owner == end && g.ip == ips[i];
      assert g.ttl in AddressTtls(facts, end, rs[i].ip);
    }
    forall ip | ip in AddressIps(facts, end) ensures ListsIp(rs, ip) {
      assert ip in ips;
      var i :| 0 <= i < |ips| && ips[i] == ip;
      assert rs[i].ip == ip;
    }
    forall i | 0 <= i < |rs| ensures rs[i].ip in AddressIps(facts, end) {
      assert ips[i] in ips;
    }
  }

  /** A positive answer lists, strictly sorted, exactly the addresses at the end of
      the chain from the query name, each with the lowest TTL over the chain and
      over all records of that address; an empty one means the chain ends in nothing. */
  lemma FollowMeaning(facts: set<Fact>, qname: Bytes, maxDepth: nat, maxAddresses: nat, rs: seq<ARecord>) returns (names: seq<Bytes>, path: U32)
    requires Follow(facts, qname, maxDepth, maxAddresses) == Ok(rs)
    ensures IsChain(facts, names) && names[0] == qname && |names| <= maxDepth + 1 && |rs| <= maxAddresses
    ensures rs == [] ==> !HasAddress(facts, names[|names| - 1]) && !HasAlias(facts, names[|names| - 1])
    ensures rs != [] ==> PathTtl(facts, names, path)
    ensures forall i, j :: 0 <= i < j < |rs| ==> rs[i].ip < rs[j].ip
    ensures forall ip :: ip in AddressIps(facts, names[|names| - 1]) <==> ListsIp(rs, ip)
    ensures forall i :: 0 <= i < |rs| ==>
              AddressTtls(facts, names[|names| - 1], rs[i].ip) != {} &&
              rs[i].ttl == Min(path, Least(AddressTtls(facts, names[|names| - 1], rs[i].ip)))
  {
    assert [qname][..0] == [];
    assert Elements([qname][..0]) == {};
    names := TrailMeaning(facts, [qname], U32_MAX, 0, maxDepth);
    path := U32_MAX;
    var trail := Trail(facts, qname, U32_MAX, 0, {}, maxDepth).value;
    if trail.Some? {
      path := trail.value.1;
      RecordsMeaning(facts, trail.value.0, path, rs);
    }
  }

  // ------------------------------------------------------------- which facts are accepted

  /** The chain ends here: in nothing, or in no more addresses than allowed. */
  ghost predicate Ends(facts: set<Fact>, name: Bytes, maxAddresses: nat) {
    !HasAlias(facts, name) && |AddressIps(facts, name)| <= maxAddresses
  }

  ghost predicate ChainFrom(facts: set<Fact>, qname: Bytes, names: seq<Bytes>, maxDepth: nat, maxAddresses: nat) {
    IsChain(facts, names) && names[0] == qname && |names| <= maxDepth + 1 && Ends(facts, names[|names| - 1], maxAddresses)
  }

  lemma OnlyNext(facts: set<Fact>, from: Bytes, to: Bytes)
    requires Consistent(facts) && Leads(facts, from, to)
    ensures HasAlias(facts, from) && !HasAddress(facts, from) && NextName(facts, from).0 == to
  {
    var f :| f in facts && f.Alias? && f.owner == from && f.target == to;
    var g :| g in facts && g.Alias? && g.owner == from && g.target == NextName(facts, from).0;
  }

  /** The walk goes along the chain to its end. */
  lemma {:induction false} TrailAlong(facts: set<Fact>, names: seq<Bytes>, path: U32, depth: nat, max: nat)
    requires Consistent(facts) && IsChain(facts, names) && depth < |names| <= max + 1 && !HasAlias(facts, names[|names| - 1])
    ensures var r := Trail(facts, names[depth], path, depth, Elements(names[..depth]), max);
            r.Ok? && (r.value.Some? <==> HasAddress(facts, names[|names| - 1])) && (r.value.Some? ==> r.value.value.0 == names[|names| - 1])
    decreases |names| - depth
  {
    var current, seen := names[depth], Elements(names[..depth]);
    assert current !in seen;
    if depth < |names| - 1 {
      assert Leads(facts, names[depth], names[depth + 1]);
      OnlyNext(facts, current, names[depth + 1]);
      assert names[..depth + 1] == names[..depth] + [current];
      assert seen + {current} == Elements(names[..depth + 1]);
      TrailAlong(facts, names, Min(path, NextName(facts, current).1), depth + 1, max);
    }
  }

  lemma RecordsCounted(facts: set<Fact>, end: Bytes, path: U32)
    ensures |Records(facts, end, path)| == |AddressIps(facts, end)|
  {
    AscendingCounts(AddressIps(facts, end));
  }

  lemma AscendingCounts(ips: set<Ipv4>)
    ensures |SortedIps(ips)| == |ips|
  {
    var sorted := SortedIps(ips);
    assert Elements(sorted) == ips;
    DistinctCount(sorted);
  }

  lemma {:induction false} DistinctCount(ips: seq<Ipv4>)
    requires forall i, j :: 0 <= i < j < |ips| ==> IpRank(ips[i]) < IpRank(ips[j])
    ensures |Elements(ips)| == |ips|
  {
    if ips != [] {
      var init, last := ips[..|ips| - 1], ips[|ips| - 1];
      DistinctCount(init);
      assert ips == init + [last];
      assert last !in init;
      assert Elements(ips) == Elements(init) + {last};
    }
  }

  /** Facts give an answer exactly when no owner contradicts itself and a chain of aliases
      from the query name, without repetition and no longer than allowed, ends in nothing
      or in no more addresses than allowed. */
  lemma FollowIff(facts: set<Fact>, qname: Bytes, maxDepth: nat, maxAddresses: nat)
    ensures Follow(facts, qname, maxDepth, maxAddresses).Ok? <==>
            Consistent(facts) && exists names :: ChainFrom(facts, qname, names, maxDepth, maxAddresses)
  {
    var follow := Follow(facts, qname, maxDepth, maxAddresses);
    if follow.Ok? {
      var names := FollowedChain(facts, qname, maxDepth, maxAddresses, follow.value);
    }
    if Consistent(facts) && exists names :: ChainFrom(facts, qname, names, maxDepth, maxAddresses) {
      var names :| ChainFrom(facts, qname, names, maxDepth, maxAddresses);
      assert Elements(names[..0]) == {};
      TrailAlong(facts, names, U32_MAX, 0, maxDepth);
      var end := Trail(facts, qname, U32_MAX, 0, {}, maxDepth).value;
      if end.Some? { RecordsCounted(facts, end.value.0, end.value.1); }
    }
  }

  lemma FollowedChain(facts: set<Fact>, qname: Bytes, maxDepth: nat, maxAddresses: nat, rs: seq<ARecord>) returns (names: seq<Bytes>)
    requires Follow(facts, qname, maxDepth, maxAddresses) == Ok(rs)
    ensures ChainFrom(facts, qname, names, maxDepth, maxAddresses)
  {
    var path;
    names, path := FollowMeaning(facts, qname, maxDepth, maxAddresses, rs);
    var end := names[|names| - 1];
    if rs != [] {
      assert ListsIp(rs, rs[0].ip);
      var f :| f in facts && f.Address? && f.owner == end && f.ip == rs[0].ip;
    }
    ListedCount(AddressIps(facts, end), rs);
  }

  lemma ListedCount(ips: set<Ipv4>, rs: seq<ARecord>)
    requires forall i, j :: 0 <= i < j < |rs| ==> rs[i].ip < rs[j].ip
    requires forall ip :: ip in ips <==> ListsIp(rs, ip)
    ensures |ips| == |rs|
  {
    var listed: seq<Ipv4> := seq(|rs|, i requires 0 <= i < |rs| => rs[i].ip);
    forall ip ensures ip in ips <==> ip in Elements(listed) {
      if ip in ips {
        var i :| 0 <= i < |rs| && rs[i].ip == ip;
        assert listed[i] == ip;
      }
      if ip in listed {
        var i :| 0 <= i < |listed| && listed[i] == ip;
        assert rs[i].ip == ip;
      }
    }
    assert ips == Elements(listed);
    DistinctCount(listed);
  }

  // ------------------------------------------------------------------ the chain in loops

  /** The alias table holds the target and lowest TTL of every alias owner. */
  ghost predicate HoldsAliases(facts: set<Fact>, cnames: map<Bytes, (Bytes, U32)>) {
    && (forall f :: f in facts && f.Alias? ==> f.owner in cnames && f.target == cnames[f.owner].0 && cnames[f.owner].1 <= f.ttl)
    && (forall o :: o in cnames ==> Alias(o, cnames[o].0, cnames[o].1) in facts)
  }

  /** The address table lists every address record under its owner. */
  ghost predicate HoldsAddresses(facts: set<Fact>, addresses: map<Bytes, seq<ARecord>>) {
    && (forall f :: f in facts && f.Address? ==> f.owner in addresses && ARecord(f.ip, f.ttl) in addresses[f.owner])
    && (forall o :: o in addresses ==> addresses[o] != [] && forall r :: r in addresses[o] ==> Address(o, r.ip, r.ttl) in facts)
  }

  lemma FactsNext(p: Bytes, answers: seq<Rr>, i: nat)
    requires i < |answers| && FactOf(p, answers[i]).Ok?
    ensures Facts(p, answers[..i + 1]) ==
            Facts(p, answers[..i]) + (if FactOf(p, answers[i]).value.Some? then {FactOf(p, answers[i]).value.value} else {})
  {
    var a, b := answers[..i], answers[..i + 1];
    assert b == a + [answers[i]];
    forall f ensures f in Facts(p, b) <==> f in Facts(p, a) || FactOf(p, answers[i]).value == Some(f) {
      if f in Facts(p, a) {
        var j :| 0 <= j < |a| && FactOf(p, a[j]).Ok? && FactOf(p, a[j]).value == Some(f);
        assert b[j] == a[j];
      }
      if FactOf(p, answers[i]).value == Some(f) {
        assert b[i] == answers[i];
      }
      if f in Facts(p, b) {
        var j :| 0 <= j < |b| && FactOf(p, b[j]).Ok? && FactOf(p, b[j]).value == Some(f);
        assert j < i ==> a[j] == b[j];
      }
    }
  }

  method AddFact(f: Fact, ghost facts: set<Fact>, cnames: map<Bytes, (Bytes, U32)>, addresses: map<Bytes, seq<ARecord>>)
    returns (ok: bool, cnames': map<Bytes, (Bytes, U32)>, addresses': map<Bytes, seq<ARecord>>)
    requires HoldsAliases(facts, cnames) && HoldsAddresses(facts, addresses)
    ensures ok ==> HoldsAliases(facts + {f}, cnames') && HoldsAddresses(facts + {f}, addresses')
    ensures !ok ==> exists g :: g in facts && g.Alias? && f.Alias? && g.owner == f.owner && g.target != f.target
  {
    ok, cnames', addresses' := true, cnames, addresses;
    match f
    case Address(owner, ip, ttl) =>
      var known := if owner in addresses then addresses[owner] else [];
      addresses' := addresses[owner := known + [ARecord(ip, ttl)]];
    case Alias(owner, target, ttl) =>
      if owner !in cnames {
        cnames' := cnames[owner := (target, ttl)];
      } else if cnames[owner].0 == target {
        cnames' := cnames[owner := (target, Min(cnames[owner].1, ttl))];
      } else {
        assert Alias(owner, cnames[owner].0, cnames[owner].1) in facts;
        ok := false;
      }
  }

  /** The first loop of `follow_cname_chain`. */
  method CollectTables(p: Bytes, answers: seq<Rr>)
    returns (r: Result<(map<Bytes, (Bytes, U32)>, map<Bytes, seq<ARecord>>), DnsError>)
    ensures r.Ok? ==> AllReadable(p, answers) && HoldsAliases(Facts(p, answers), r.value.0) && HoldsAddresses(Facts(p, answers), r.value.1)
    ensures r.Err? ==> r.error == Malformed && (!AllReadable(p, answers) || !OneTarget(Facts(p, answers)))
  {
    var cnames: map<Bytes, (Bytes, U32)>, addresses: map<Bytes, seq<ARecord>> := map[], map[];
    assert Facts(p, answers[..0]) == {};
    for i := 0 to |answers|
      invariant AllReadable(p, answers[..i])
      invariant HoldsAliases(Facts(p, answers[..i]), cnames) && HoldsAddresses(Facts(p, answers[..i]), addresses)
    {
      var fact := FactOf(p, answers[i]);
      if fact.Err? { return Err(Malformed); }
      FactsNext(p, answers, i);
      if fact.value.Some? {
        var ok;
        ok, cnames, addresses := AddFact(fact.value.value, Facts(p, answers[..i]), cnames, addresses);
        if !ok {
          ghost var f := fact.value.value;
          ghost var g :| g in Facts(p, answers[..i]) && g.Alias? && f.Alias? && g.owner == f.owner && g.target != f.target;
          FactsPrefix(p, answers, i + 1);
          return Err(Malformed);
        }
      }
    }
    assert answers[..|answers|] == answers;
    return Ok((cnames, addresses));
  }

  lemma FactsPrefix(p: Bytes, answers: seq<Rr>, n: nat)
    requires n <= |answers|
    ensures Facts(p, answers[..n]) <= Facts(p, answers)
  {
    forall f | f in Facts(p, answers[..n]) ensures f in Facts(p, answers) {
      var j :| 0 <= j < n && FactOf(p, answers[..n][j]).Ok? && FactOf(p, answers[..n][j]).value == Some(f);
      assert answers[j] == answers[..n][j];
    }
  }

  lemma TablesAgree(facts: set<Fact>, cnames: map<Bytes, (Bytes, U32)>, addresses: map<Bytes, seq<ARecord>>, owner: Bytes)
    requires HoldsAliases(facts, cnames) && HoldsAddresses(facts, addresses)
    ensures owner in cnames <==> HasAlias(facts, owner)
    ensures owner in addresses <==> HasAddress(facts, owner)
    ensures owner in cnames ==> cnames[owner] == NextName(facts, owner)
  {
    if owner in addresses { assert addresses[owner][0] in addresses[owner]; }
    if owner in cnames {
      var least := cnames[owner].1;
      assert Alias(owner, cnames[owner].0, least) in facts;
      assert least in AliasTtls(facts, owner);
      assert IsLeast(AliasTtls(facts, owner), least);
    }
  }

  /** Lowest TTL per address of an address list, with the path's. */
  method DedupAddresses(ghost facts: set<Fact>, ghost owner: Bytes, records: seq<ARecord>, path: U32) returns (dedup: map<Ipv4, U32>)
    requires forall r :: r in records ==> Address(owner, r.ip, r.ttl) in facts
    requires forall f :: f in facts && f.Address? && f.owner == owner ==> ARecord(f.ip, f.ttl) in records
    ensures dedup.Keys == AddressIps(facts, owner)
    ensures forall ip :: ip in dedup ==> dedup[ip] == RecordTtl(facts, owner, ip, path)
  {
    dedup := map[];
    for i := 0 to |records|
      invariant forall ip :: ip in dedup <==> exists k :: 0 <= k < i && records[k].ip == ip
      invariant forall k :: 0 <= k < i ==> records[k].ip in dedup && dedup[records[k].ip] <= Min(records[k].ttl, path)
      invariant forall ip :: ip in dedup ==> exists k :: 0 <= k < i && records[k].ip == ip && dedup[ip] == Min(records[k].ttl, path)
    {
      var ip, ttl := records[i].ip, Min(records[i].ttl, path);
      dedup := dedup[ip := if ip in dedup then Min(dedup[ip], ttl) else ttl];
    }
    forall ip ensures ip in dedup <==> ip in AddressIps(facts, owner) {
      DedupMember(facts, owner, records, ip);
    }
    forall ip | ip in dedup ensures dedup[ip] == RecordTtl(facts, owner, ip, path) {
      DedupLeast(facts, owner, records, path, ip, dedup[ip]);
    }
  }

  lemma DedupMember(facts: set<Fact>, owner: Bytes, records: seq<ARecord>, ip: Ipv4)
    requires forall r :: r in records ==> Address(owner, r.ip, r.ttl) in facts
    requires forall f :: f in facts && f.Address? && f.owner == owner ==> ARecord(f.ip, f.ttl) in records
    ensures ip in AddressIps(facts, owner) <==> exists k :: 0 <= k < |records| && records[k].ip == ip
  {
    if ip in AddressIps(facts, owner) {
      var f :| f in facts && f.Address? && f.owner == owner && f.ip == ip;
      var k :| 0 <= k < |records| && records[k] == ARecord(f.ip, f.ttl);
      assert records[k].ip == ip;
    }
    if k :| 0 <= k < |records| && records[k].ip == ip {
      assert records[k] in records;
      assert Address(owner, ip, records[k].ttl) in facts;
    }
  }

  lemma DedupLeast(facts: set<Fact>, owner: Bytes, records: seq<ARecord>, path: U32, ip: Ipv4, ttl: U32)
    requires forall r :: r in records ==> Address(owner, r.ip, r.ttl) in facts
    requires forall f :: f in facts && f.Address? && f.owner == owner ==> ARecord(f.ip, f.ttl) in records
    requires forall k :: 0 <= k < |records| && records[k].ip == ip ==> ttl <= Min(records[k].ttl, path)
    requires exists k :: 0 <= k < |records| && records[k].ip == ip && ttl == Min(records[k].ttl, path)
    ensures ttl == RecordTtl(facts, owner, ip, path)
  {
    var k :| 0 <= k < |records| && records[k].ip == ip && ttl == Min(records[k].ttl, path);
    assert records[k] in records;
    assert records[k].ttl in AddressTtls(facts, owner, ip);
    var least := Least(AddressTtls(facts, owner, ip));
    var f :| f in facts && f.Address? && f.owner == owner && f.ip == ip && f.ttl == least;
    var m :| 0 <= m < |records| && records[m] == ARecord(f.ip, f.ttl);
  }

  method SortedKeys(keys: set<Ipv4>) returns (ips: seq<Ipv4>)
    ensures ips == SortedIps(keys) && |ips| == |keys|
  {
    ips := Ascending(keys, IpRank);
    SortedUnique(ips, SortedIps(keys), IpRank);
  }

  method ListMap(m: map<Ipv4, U32>, ips: seq<Ipv4>) returns (rs: seq<ARecord>)
    requires forall i :: 0 <= i < |ips| ==> ips[i] in m
    ensures |rs| == |ips| && forall i :: 0 <= i < |ips| ==> rs[i] == ARecord(ips[i], m[ips[i]])
  {
    rs := [];
    for i := 0 to |ips|
      invariant |rs| == i && forall k :: 0 <= k < i ==> rs[k] == ARecord(ips[k], m[ips[k]])
    {
      rs := rs + [ARecord(ips[i], m[ips[i]])];
    }
  }

  lemma RecordsListed(facts: set<Fact>, owner: Bytes, path: U32, ips: seq<Ipv4>, rs: seq<ARecord>)
    requires ips == SortedIps(AddressIps(facts, owner)) && |rs| == |ips|
    requires forall i :: 0 <= i < |ips| ==> rs[i] == ARecord(ips[i], RecordTtl(facts, owner, ips[i], path))
    ensures rs == Records(facts, owner, path)
  {
  }

  method ListRecords(ghost facts: set<Fact>, ghost owner: Bytes, ghost path: U32, dedup: map<Ipv4, U32>) returns (rs: seq<ARecord>)
    requires dedup.Keys == AddressIps(facts, owner) && forall ip :: ip in dedup ==> dedup[ip] == RecordTtl(facts, owner, ip, path)
    ensures rs == Records(facts, owner, path) && |rs| == |dedup|
  {
    var ips := SortedKeys(dedup.Keys);
    assert forall i :: 0 <= i < |ips| ==> ips[i] in dedup.Keys;
    rs := ListMap(dedup, ips);
    RecordsListed(facts, owner, path, ips, rs);
  }

  ghost predicate Agree(facts: set<Fact>, cnames: map<Bytes, (Bytes, U32)>, addresses: map<Bytes, seq<ARecord>>) {
    forall owner: Bytes ::
      (owner in cnames <==> HasAlias(facts, owner)) && (owner in addresses <==> HasAddress(facts, owner)) &&
      (owner in cnames ==> cnames[owner] == NextName(facts, owner))
  }

  /** The walk along the tables; it returns from inside the loop on every input. */
  method WalkTables(ghost facts: set<Fact>, cnames: map<Bytes, (Bytes, U32)>, addresses: map<Bytes, seq<ARecord>>, qname: Bytes, maxDepth: nat)
    returns (r: Result<Option<(Bytes, U32)>, DnsError>)
    requires Agree(facts, cnames, addresses)
    ensures r == Trail(facts, qname, U32_MAX, 0, {}, maxDepth)
    ensures r.Ok? && r.value.Some? ==> r.value.value.0 in addresses
  {
    var current, path: U32, seen := qname, U32_MAX, {};
    ghost var expected := Trail(facts, qname, U32_MAX, 0, {}, maxDepth);
    for depth := 0 to maxDepth + 1
      invariant depth <= maxDepth
      invariant expected == Trail(facts, current, path, depth, seen, maxDepth)
    {
      if current in seen { return Err(Malformed); }
      if current in addresses { return Ok(Some((current, path))); }
      if current !in cnames { return Ok(None); }
      if depth == maxDepth { return Err(Malformed); }
      seen := seen + {current};
      path := Min(path, cnames[current].1);
      current := cnames[current].0;
    }
    assert false;
  }

  lemma MixedOwner(facts: set<Fact>, cnames: map<Bytes, (Bytes, U32)>, addresses: map<Bytes, seq<ARecord>>)
    requires Agree(facts, cnames, addresses) && HoldsAliases(facts, cnames)
    ensures Consistent(facts) <==> cnames.Keys !! addresses.Keys
  {
    if owner :| owner in cnames && owner in addresses {
      assert HasAlias(facts, owner) && HasAddress(facts, owner);
      var f :| f in facts && f.Alias? && f.owner == owner;
      var g :| g in facts && g.Address? && g.owner == owner;
    } else {
      forall f, g | f in facts && g in facts && f.Alias? && g.Address? ensures f.owner != g.owner {
        assert HasAlias(facts, f.owner) && HasAddress(facts, g.owner);
      }
    }
  }

  /** `follow_cname_chain`. */
  method FollowCnameChain(p: Bytes, answers: seq<Rr>, qname: Bytes, maxDepth: nat, maxAddresses: nat) returns (r: Result<seq<ARecord>, DnsError>)
    ensures r == Answer(p, answers, qname, maxDepth, maxAddresses)
  {
    var tables := CollectTables(p, answers);
    if tables.Err? { return Err(Malformed); }
    var cnames, addresses := tables.value.0, tables.value.1;
    ghost var facts := Facts(p, answers);
    assert Agree(facts, cnames, addresses) by {
      forall owner: Bytes
        ensures (owner in cnames <==> HasAlias(facts, owner)) && (owner in addresses <==> HasAddress(facts, owner)) &&
                (owner in cnames ==> cnames[owner] == NextName(facts, owner)) {
        TablesAgree(facts, cnames, addresses, owner);
      }
    }
    MixedOwner(facts, cnames, addresses);
    if !(cnames.Keys !! addresses.Keys) { return Err(Malformed); }
    var end := WalkTables(facts, cnames, addresses, qname, maxDepth);
    if end.Err? { return Err(Malformed); }
    if end.value.None? { return Ok([]); }
    r := AnswerAt(facts, addresses, end.value.value.0, end.value.value.1, maxAddresses);
  }

  method AnswerAt(ghost facts: set<Fact>, addresses: map<Bytes, seq<ARecord>>, owner: Bytes, path: U32, maxAddresses: nat) returns (r: Result<seq<ARecord>, DnsError>)
    requires owner in addresses && HoldsAddresses(facts, addresses)
    ensures r == if |Records(facts, owner, path)| > maxAddresses then Err(Malformed) else Ok(Records(facts, owner, path))
  {
    var dedup := DedupAddresses(facts, owner, addresses[owner], path);
    var rs := ListRecords(facts, owner, path, dedup);
    if |dedup| > maxAddresses { return Err(Malformed); }
    return Ok(rs);
  }
}
