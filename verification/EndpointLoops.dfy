/** The loops of the coordinator, proved against its value functions. */
module EndpointLoops {
  import opened Prelude
  import opened Ordered
  import opened Names
  import opened EndpointPlan
  import opened EndpointRuntime
  import opened Endpoint
  import opened EndpointInvariant

  // -------------------------------------------------------------- host access

  /** The candidates of `keys` that own tuple `t`. */
  ghost function TupleOwners(logical: Logicals, keys: set<Key>, t: Tuple): set<Key>
    requires KeysKnown(logical, keys)
  {
    set k | k in keys && logical[k.logical].spec.TupleAt(k.ip) == t
  }

  ghost function IpOwners(keys: set<Key>, ip: Ipv4): set<Key> {
    set k | k in keys && k.ip == ip
  }

  ghost predicate CountsTuples(logical: Logicals, keys: set<Key>, m: map<Tuple, nat>)
    requires KeysKnown(logical, keys)
  {
    forall t :: (t in m <==> TupleOwners(logical, keys, t) != {}) && (t in m ==> m[t] == |TupleOwners(logical, keys, t)|)
  }

  ghost predicate CountsIps(keys: set<Key>, m: map<Ipv4, nat>) {
    forall ip :: (ip in m <==> IpOwners(keys, ip) != {}) && (ip in m ==> m[ip] == |IpOwners(keys, ip)|)
  }

  lemma TupleOwnersAdd(logical: Logicals, keys: set<Key>, k: Key, t: Tuple)
    requires KeysKnown(logical, keys + {k}) && k !in keys
    ensures TupleOwners(logical, keys + {k}, t) ==
            TupleOwners(logical, keys, t) + (if logical[k.logical].spec.TupleAt(k.ip) == t then {k} else {})
  {
  }

  lemma IpOwnersAdd(keys: set<Key>, k: Key, ip: Ipv4)
    requires k !in keys
    ensures IpOwners(keys + {k}, ip) == IpOwners(keys, ip) + (if k.ip == ip then {k} else {})
  {
  }

  function Bump<T>(m: map<T, nat>, x: T): map<T, nat> {
    m[x := (if x in m then m[x] else 0) + 1]
  }

  lemma BumpTuple(logical: Logicals, keys: set<Key>, k: Key, m: map<Tuple, nat>)
    requires KeysKnown(logical, keys + {k}) && k !in keys && CountsTuples(logical, keys, m)
    ensures CountsTuples(logical, keys + {k}, Bump(m, logical[k.logical].spec.TupleAt(k.ip)))
  {
    var x := logical[k.logical].spec.TupleAt(k.ip);
    var n := Bump(m, x);
    forall t ensures (t in n <==> TupleOwners(logical, keys + {k}, t) != {}) && (t in n ==> n[t] == |TupleOwners(logical, keys + {k}, t)|) {
      TupleOwnersAdd(logical, keys, k, t);
      assert k !in TupleOwners(logical, keys, t);
    }
  }

  lemma BumpIp(keys: set<Key>, k: Key, m: map<Ipv4, nat>)
    requires k !in keys && CountsIps(keys, m)
    ensures CountsIps(keys + {k}, Bump(m, k.ip))
  {
    var n := Bump(m, k.ip);
    forall ip ensures (ip in n <==> IpOwners(keys + {k}, ip) != {}) && (ip in n ==> n[ip] == |IpOwners(keys + {k}, ip)|) {
      IpOwnersAdd(keys, k, ip);
      assert k !in IpOwners(keys, ip);
    }
  }

  lemma CountsAccess(logical: Logicals, keys: set<Key>, tuples: map<Tuple, nat>, ips: map<Ipv4, nat>)
    requires KeysKnown(logical, keys) && CountsTuples(logical, keys, tuples) && CountsIps(keys, ips)
    ensures Host(tuples.Keys, ips.Keys) == Access(logical, keys)
  {
    forall t ensures t in tuples.Keys <==> t in Access(logical, keys).allowed {
      if t in tuples {
        var k :| k in TupleOwners(logical, keys, t);
      }
      if t in Access(logical, keys).allowed {
        var k :| k in keys && logical[k.logical].spec.TupleAt(k.ip) == t;
        assert k in TupleOwners(logical, keys, t);
      }
    }
    forall ip ensures ip in ips.Keys <==> ip in Access(logical, keys).bypass {
      if ip in ips {
        var k :| k in IpOwners(keys, ip);
      }
      if ip in Access(logical, keys).bypass {
        var k :| k in keys && k.ip == ip;
        assert k in IpOwners(keys, ip);
      }
    }
    assert tuples.Keys == Access(logical, keys).allowed && ips.Keys == Access(logical, keys).bypass;
  }

  /** Reference counts per tuple and per address over the whole candidate map. */
  method AccessRefs(logical: Logicals, candidates: Candidates) returns (tuples: map<Tuple, nat>, ips: map<Ipv4, nat>)
    requires KeysKnown(logical, candidates.Keys)
    ensures CountsTuples(logical, candidates.Keys, tuples) && CountsIps(candidates.Keys, ips)
    ensures Host(tuples.Keys, ips.Keys) == Access(logical, candidates.Keys)
  {
    tuples, ips := map[], map[];
    var rest := candidates.Keys;
    while rest != {}
      invariant rest <= candidates.Keys
      invariant CountsTuples(logical, candidates.Keys - rest, tuples) && CountsIps(candidates.Keys - rest, ips)
    {
      var k :| k in rest;
      ghost var done := candidates.Keys - rest;
      BumpTuple(logical, done, k, tuples);
      BumpIp(done, k, ips);
      tuples := Bump(tuples, logical[k.logical].spec.TupleAt(k.ip));
      ips := Bump(ips, k.ip);
      rest := rest - {k};
      assert candidates.Keys - rest == done + {k};
    }
    assert candidates.Keys - {} == candidates.Keys;
    CountsAccess(logical, candidates.Keys, tuples, ips);
  }

  // ---------------------------------------------------------------------- plans

  lemma AppendSorted<T>(r: seq<T>, x: T, rank: T -> int)
    requires StrictlySorted(r, rank) && forall y :: y in r ==> rank(y) < rank(x)
    ensures StrictlySorted(r + [x], rank)
  {
    var s := r + [x];
    forall i, j | 0 <= i < j < |s| ensures rank(s[i]) < rank(s[j]) {
      assert r[i] in r && s[i] == r[i];
      assert j < |r| ==> s[j] == r[j];
    }
  }

  lemma LastSorted<T>(all: seq<T>, i: nat, x: T, rank: T -> int)
    requires StrictlySorted(all, rank) && i < |all| && x in all[..i]
    ensures rank(x) < rank(all[i])
  {
    var j :| 0 <= j < i && all[..i][j] == x;
    assert all[j] == x;
  }

  ghost predicate Lacking<T(!new)>(these: seq<T>, those: set<T>, r: seq<T>) {
    forall x :: x in r <==> x in these && x !in those
  }

  lemma LackingNext<T(!new)>(all: seq<T>, i: nat, those: set<T>, r: seq<T>)
    requires i < |all| && Lacking(all[..i], those, r)
    ensures Lacking(all[..i + 1], those, if all[i] in those then r else r + [all[i]])
  {
    assert all[..i + 1] == all[..i] + [all[i]];
  }

  /** In-order walk over a map that keeps the keys the other map lacks. */
  method Missing<T(!new,==)>(these: set<T>, those: set<T>, rank: T -> int) returns (r: seq<T>)
    requires InjectiveOn(these, rank)
    ensures StrictlySorted(r, rank)
    ensures forall x :: x in r <==> x in these - those
  {
    var all := Ascending(these, rank);
    r := [];
    for i := 0 to |all|
      invariant StrictlySorted(r, rank) && Lacking(all[..i], those, r)
    {
      LackingNext(all, i, those, r);
      if all[i] !in those {
        forall y | y in r ensures rank(y) < rank(all[i]) { LastSorted(all, i, y, rank); }
        AppendSorted(r, all[i], rank);
        r := r + [all[i]];
      }
    }
    assert all[..|all|] == all;
  }

  method MissingTuples(these: map<Tuple, nat>, those: map<Tuple, nat>) returns (r: seq<Tuple>)
    ensures r == SortedTuples(these.Keys - those.Keys)
  {
    TupleRankInjective();
    r := Missing(these.Keys, those.Keys, TupleRank);
    SortedUnique(r, SortedTuples(these.Keys - those.Keys), TupleRank);
  }

  method MissingIps(these: map<Ipv4, nat>, those: map<Ipv4, nat>) returns (r: seq<Ipv4>)
    ensures r == SortedIps(these.Keys - those.Keys)
  {
    r := Missing(these.Keys, those.Keys, IpRank);
    SortedUnique(r, SortedIps(these.Keys - those.Keys), IpRank);
  }

  method TransitionPlan(logical: Logicals, from: Candidates, to: Candidates, publish: Marker) returns (ops: seq<Op>)
    requires KeysKnown(logical, from.Keys) && KeysKnown(logical, to.Keys)
    ensures ops == Plan(logical, from, to, publish)
  {
    var oldTuples, oldIps := AccessRefs(logical, from);
    var newTuples, newIps := AccessRefs(logical, to);
    var allowed := MissingTuples(newTuples, oldTuples);
    var added := MissingIps(newIps, oldIps);
    var denied := MissingTuples(oldTuples, newTuples);
    var removed := MissingIps(oldIps, newIps);
    ops := Allows(allowed) + Adds(added) + MarkerOps(publish) + Denies(denied) + Removes(removed);
  }

  /** The plan together with the verdict of the order check on it. */
  method CheckedPlan(logical: Logicals, from: Candidates, to: Candidates, publish: Marker) returns (ops: seq<Op>, ordered: bool)
    requires KeysKnown(logical, from.Keys) && KeysKnown(logical, to.Keys)
    ensures ops == Plan(logical, from, to, publish)
    ensures publish.Publication? || to.Keys <= from.Keys ==> ordered
  {
    ops := TransitionPlan(logical, from, to, publish);
    ordered := ValidateOrder(ops);
    if publish.Publication? || to.Keys <= from.Keys { PlanOrdered(logical, from, to, publish); }
  }

  lemma PlanOrdered(logical: Logicals, from: Candidates, to: Candidates, publish: Marker)
    requires KeysKnown(logical, from.Keys) && KeysKnown(logical, to.Keys)
    requires publish.Publication? || to.Keys <= from.Keys
    ensures OrderOk(Plan(logical, from, to, publish))
  {
    TransitionIsPlan(Access(logical, from.Keys), Access(logical, to.Keys), publish);
    if to.Keys <= from.Keys { AccessMonotone(logical, to.Keys, from.Keys); }
    PlanOrder(Access(logical, from.Keys), Access(logical, to.Keys), publish, Plan(logical, from, to, publish));
  }

  // ------------------------------------------------------------------- snapshots

  lemma AppendDial(logical: Logicals, keys: seq<Key>, i: nat, r: seq<DialCandidate>)
    requires i < |keys| && StrictlySorted(keys, KeyRank) && StrictlySorted(r, DialRank) && keys[i].logical in logical
    requires forall d :: d in r ==> d.key in keys[..i]
    ensures StrictlySorted(r + [Dial(logical, keys[i])], DialRank)
  {
    forall d | d in r ensures DialRank(d) < DialRank(Dial(logical, keys[i])) {
      LastSorted(keys, i, d.key, KeyRank);
    }
    AppendSorted(r, Dial(logical, keys[i]), DialRank);
  }

  /** In-order walk that dials every candidate of a key list. */
  method DialAll(logical: Logicals, keys: seq<Key>) returns (r: seq<DialCandidate>)
    requires StrictlySorted(keys, KeyRank) && forall k :: k in keys ==> k.logical in logical
    ensures StrictlySorted(r, DialRank)
    ensures forall d :: d in r <==> d.key in keys && d == Dial(logical, d.key)
  {
    r := [];
    for i := 0 to |keys|
      invariant StrictlySorted(r, DialRank)
      invariant forall d :: d in r <==> d.key in keys[..i] && d == Dial(logical, d.key)
    {
      assert keys[i] in keys;
      AppendDial(logical, keys, i, r);
      r := r + [Dial(logical, keys[i])];
      assert keys[..i + 1] == keys[..i] + [keys[i]];
    }
    assert keys[..|keys|] == keys;
  }

  method BuildSnapshot(generation: U64, logical: Logicals, candidates: Candidates) returns (snapshot: DialSnapshot)
    requires KeysKnown(logical, candidates.Keys)
    ensures snapshot == DialSnapshot(generation, DialList(logical, candidates))
  {
    KeyRankInjective();
    var retired := set k | k in candidates && !candidates[k].dialable;
    var keys := Missing(candidates.Keys, retired, KeyRank);
    var r := DialAll(logical, keys);
    assert IsDialList(logical, candidates, r);
    DialListUnique(logical, candidates, r);
    snapshot := DialSnapshot(generation, r);
  }

  /** The next snapshot after an applied answer, and whether it is a new one. */
  method NextSnapshot(before: DialSnapshot, logical: Logicals, candidates: Candidates) returns (snapshot: DialSnapshot, marker: Marker)
    requires KeysKnown(logical, candidates.Keys)
    ensures var view := DialList(logical, candidates);
            snapshot == NextDial(before, view) &&
            marker == (if before.candidates == snapshot.candidates then NoPublication else Publication(before.generation, snapshot.generation))
  {
    var view := BuildSnapshot(before.generation, logical, candidates);
    if before.candidates == view.candidates {
      snapshot, marker := before, NoPublication;
    } else {
      snapshot := DialSnapshot(SatAdd64(before.generation, 1), view.candidates);
      marker := Publication(before.generation, snapshot.generation);
    }
  }

  // ---------------------------------------------------------------- observations

  method DedupRecords(records: seq<AddressRecord>) returns (ttls: map<Ipv4, U32>)
    ensures ttls == Dedup(records)
  {
    ttls := map[];
    for i := 0 to |records|
      invariant ttls == Dedup(records[..i])
    {
      assert records[..i + 1][..i] == records[..i];
      var ip, ttl := records[i].ip, records[i].ttl;
      ttls := ttls[ip := if ip in ttls then Min(ttls[ip], ttl) else ttl];
    }
    assert records[..|records|] == records;
  }

  method LeastOf(ttls: map<Ipv4, U32>) returns (least: U32)
    requires ttls.Values != {}
    ensures least == LeastTtl(ttls)
  {
    least := U32_MAX;
    var rest := ttls.Keys;
    ghost var v :| v in ttls.Values;
    ghost var w :| w in ttls.Keys && ttls[w] == v;
    while rest != {}
      invariant rest <= ttls.Keys
      invariant forall ip :: ip in ttls.Keys - rest ==> least <= ttls[ip]
      invariant (rest == ttls.Keys && least == U32_MAX) || exists ip :: ip in ttls.Keys - rest && ttls[ip] == least
    {
      var ip :| ip in rest;
      if ttls[ip] < least { least := ttls[ip]; }
      rest := rest - {ip};
      assert ip in ttls.Keys - rest;
    }
    assert IsLeast(ttls.Values, least);
  }

  /** The loop that inserts or renews every answered address. */
  method Renew(candidates: Candidates, l: LogicalId, ttls: map<Ipv4, U32>, now: U64) returns (r: Candidates)
    ensures r.Keys == candidates.Keys + (set ip | ip in ttls :: Key(l, ip))
    ensures forall k :: k in r ==>
              r[k] == if k.logical == l && k.ip in ttls
                      then CandidateState(Some(SatAdd64(now, SatMul64(Clamp(ttls[k.ip], MIN_TTL_SECS, MAX_TTL_SECS), 1_000))), true,
                                          if k in candidates then candidates[k].leases else 0)
                      else candidates[k]
  {
    r := candidates;
    var rest := ttls.Keys;
    while rest != {}
      invariant rest <= ttls.Keys
      invariant forall k :: k in r <==> k in candidates || (k.logical == l && k.ip in ttls.Keys - rest)
      invariant forall k :: k in r ==>
                  r[k] == if k.logical == l && k.ip in ttls.Keys - rest
                          then CandidateState(Some(SatAdd64(now, SatMul64(Clamp(ttls[k.ip], MIN_TTL_SECS, MAX_TTL_SECS), 1_000))), true,
                                              if k in candidates then candidates[k].leases else 0)
                          else candidates[k]
    {
      var ip :| ip in rest;
      var k := Key(l, ip);
      var candidate := if k in r then r[k] else CandidateState(None, true, 0);
      var ttl := Clamp(ttls[ip], MIN_TTL_SECS, MAX_TTL_SECS);
      r := r[k := candidate.(dialable := true, validUntil := Some(SatAdd64(now, SatMul64(ttl, 1_000))))];
      rest := rest - {ip};
    }
    forall k ensures k in r <==> k in candidates.Keys + (set ip | ip in ttls :: Key(l, ip)) {
      assert k == Key(k.logical, k.ip);
    }
  }

  /** The loop that depublishes every address of `l` the answer left out. */
  method Depublish(candidates: Candidates, l: LogicalId, observed: set<Ipv4>) returns (r: Candidates)
    ensures r.Keys == candidates.Keys
    ensures forall k :: k in r ==>
              r[k] == if k.logical == l && k.ip !in observed then candidates[k].(dialable := false) else candidates[k]
  {
    r := candidates;
    var existing := set k | k in candidates && k.logical == l && k.ip !in observed;
    var rest := existing;
    while rest != {}
      invariant rest <= existing && r.Keys == candidates.Keys
      invariant forall k :: k in r ==>
                  r[k] == if k in existing - rest then candidates[k].(dialable := false) else candidates[k]
    {
      var k :| k in rest;
      r := r[k := r[k].(dialable := false)];
      rest := rest - {k};
    }
  }

  method ObserveCandidates(candidates: Candidates, l: LogicalId, ttls: map<Ipv4, U32>, now: U64) returns (r: Candidates)
    ensures r == Observed(candidates, l, ttls, now)
  {
    var renewed := Renew(candidates, l, ttls, now);
    r := Depublish(renewed, l, ttls.Keys);
    var spec := Observed(candidates, l, ttls, now);
    forall k | k in r ensures r[k] == spec[k] {
      assert k == Key(k.logical, k.ip);
    }
  }

  /** The loop that makes every signed address a dialable candidate. */
  method ReviveAuthority(logical: Logicals, candidates: Candidates) returns (r: Candidates, revived: set<Key>)
    ensures r == Rehydrated(logical, candidates)
    ensures revived == Revived(logical, candidates)
  {
    r, revived := candidates, {};
    var all := AuthorityKeys(logical);
    var rest := all;
    while rest != {}
      invariant rest <= all
      invariant forall k :: k in r <==> k in candidates || k in all - rest
      invariant forall k :: k in r ==>
                  r[k] == if k in candidates && (candidates[k].dialable || k !in all - rest) then candidates[k]
                          else if k in candidates then candidates[k].(dialable := true, validUntil := None)
                          else CandidateState(None, true, 0)
      invariant revived == (all - rest) - Dialable(candidates)
    {
      var k :| k in rest;
      if k in r && !r[k].dialable {
        r := r[k := r[k].(dialable := true, validUntil := None)];
        revived := revived + {k};
      } else if k !in r {
        r := r[k := CandidateState(None, true, 0)];
        revived := revived + {k};
      }
      rest := rest - {k};
    }
  }

  method CheckHostname(hostname: Bytes) returns (ok: bool)
    ensures ok <==> ValidHostname(hostname)
  {
    var name := TrimDots(hostname);
    if name == [] || |name| > 253 { return false; }
    var labels := Split(name);
    for i := 0 to |labels|
      invariant forall j :: 0 <= j < i ==> 1 <= |labels[j]| <= 63
    {
      if |labels[i]| == 0 || |labels[i]| > 63 { return false; }
    }
    ok := true;
  }

  // --------------------------------------------------------------- construction

  ghost predicate Registered(endpoints: seq<LogicalEndpoint>, n: nat, logical: Logicals, now: U64)
    requires n <= |endpoints|
  {
    && (forall id :: id in logical <==> exists j :: 0 <= j < n && endpoints[j].id == id)
    && (forall j :: 0 <= j < n ==>
          endpoints[j].id in logical && logical[endpoints[j].id] == LogicalState(endpoints[j], 0, 0, 0, SatAdd64(now, 5_000)))
  }

  ghost predicate AllValid(endpoints: seq<LogicalEndpoint>, n: nat)
    requires n <= |endpoints|
  {
    && (forall j :: 0 <= j < n ==> ValidEndpoint(endpoints[j]))
    && (forall i, j :: 0 <= i < j < n ==> endpoints[i].id != endpoints[j].id)
  }

  /** The checks on one endpoint, and which of them fails first. */
  method CheckEndpoint(spec: LogicalEndpoint) returns (error: Option<Error>)
    ensures error.None? <==> ValidEndpoint(spec)
    ensures error == Some(BadHostname) <==> !ValidHostname(spec.hostname)
    ensures error == Some(ZeroPort) <==> ValidHostname(spec.hostname) && spec.port == 0
    ensures error.Some? ==> error.value in {BadHostname, ZeroPort, AuthorityRejected}
  {
    var named := CheckHostname(spec.hostname);
    if !named { return Some(BadHostname); }
    if spec.port == 0 { return Some(ZeroPort); }
    if exists ip | ip in spec.authority.allowed :: !spec.addressPolicy.Permits(ip) { return Some(AuthorityRejected); }
    return None;
  }

  method RegisterEndpoints(endpoints: seq<LogicalEndpoint>, now: U64) returns (r: Result<Logicals, Error>)
    ensures r.Ok? <==> endpoints != [] && AllValid(endpoints, |endpoints|)
    ensures r.Ok? ==> Registered(endpoints, |endpoints|, r.value, now)
    ensures r == Err(NoLogical) <==> endpoints == []
  {
    var logical: Logicals := map[];
    for i := 0 to |endpoints|
      invariant AllValid(endpoints, i) && Registered(endpoints, i, logical, now)
    {
      var error := CheckEndpoint(endpoints[i]);
      if error.Some? { return Err(error.value); }
      if endpoints[i].id in logical {
        ghost var j :| 0 <= j < i && endpoints[j].id == endpoints[i].id;
        return Err(DuplicateLogical);
      }
      RegisteredNext(endpoints, i, logical, now);
      ValidNext(endpoints, i, logical, now);
      logical := logical[endpoints[i].id := Unqueried(endpoints[i], now)];
    }
    if endpoints == [] { return Err(NoLogical); }
    return Ok(logical);
  }

  function Unqueried(spec: LogicalEndpoint, now: U64): LogicalState {
    LogicalState(spec, 0, 0, 0, SatAdd64(now, 5_000))
  }

  lemma RegisteredNext(endpoints: seq<LogicalEndpoint>, i: nat, before: Logicals, now: U64)
    requires i < |endpoints| && endpoints[i].id !in before && Registered(endpoints, i, before, now)
    ensures Registered(endpoints, i + 1, before[endpoints[i].id := Unqueried(endpoints[i], now)], now)
  {
    var logical := before[endpoints[i].id := Unqueried(endpoints[i], now)];
    forall id ensures id in logical <==> exists j :: 0 <= j < i + 1 && endpoints[j].id == id {
      if id in before {
        var j :| 0 <= j < i && endpoints[j].id == id;
      }
    }
    forall j | 0 <= j < i + 1 ensures endpoints[j].id in logical && logical[endpoints[j].id] == Unqueried(endpoints[j], now) {
      assert j < i ==> endpoints[j].id in before;
    }
  }

  lemma ValidNext(endpoints: seq<LogicalEndpoint>, i: nat, before: Logicals, now: U64)
    requires i < |endpoints| && endpoints[i].id !in before && Registered(endpoints, i, before, now) && AllValid(endpoints, i) && ValidEndpoint(endpoints[i])
    ensures AllValid(endpoints, i + 1)
  {
    forall j | 0 <= j < i ensures endpoints[j].id != endpoints[i].id { assert endpoints[j].id in before; }
  }

  ghost predicate SeedKnown(logical: Logicals, seed: SeedCandidate) {
    seed.logical in logical && seed.ip in logical[seed.logical].spec.authority.allowed &&
    logical[seed.logical].spec.addressPolicy.Permits(seed.ip)
  }

  lemma SeedKnownFits(endpoints: seq<LogicalEndpoint>, logical: Logicals, now: U64, seed: SeedCandidate)
    requires Registered(endpoints, |endpoints|, logical, now)
    ensures SeedKnown(logical, seed) <==> SeedFits(endpoints, seed)
  {
    if SeedKnown(logical, seed) {
      var j :| 0 <= j < |endpoints| && endpoints[j].id == seed.logical;
      assert logical[endpoints[j].id].spec == endpoints[j];
    }
  }

  method RegisterSeeds(ghost endpoints: seq<LogicalEndpoint>, logical: Logicals, seeds: seq<SeedCandidate>, ghost now: U64) returns (r: Result<Candidates, Error>)
    requires Registered(endpoints, |endpoints|, logical, now)
    ensures r.Ok? <==> seeds != [] && forall j :: 0 <= j < |seeds| ==> SeedFits(endpoints, seeds[j])
    ensures r.Ok? ==> KeysKnown(logical, r.value.Keys)
    ensures r.Ok? ==> forall k :: k in r.value <==> HasSeed(seeds, k)
    ensures r.Ok? ==> forall k :: k in r.value ==> r.value[k] == CandidateState(None, true, 0)
  {
    var candidates: Candidates := map[];
    for i := 0 to |seeds|
      invariant forall j :: 0 <= j < i ==> SeedFits(endpoints, seeds[j])
      invariant forall k :: k in candidates <==> HasSeed(seeds[..i], k)
      invariant forall k :: k in candidates ==> k.logical in logical && candidates[k] == CandidateState(None, true, 0)
    {
      var seed := seeds[i];
      SeedKnownFits(endpoints, logical, now, seed);
      if seed.logical !in logical { return Err(UnknownSeed); }
      if seed.ip !in logical[seed.logical].spec.authority.allowed { return Err(SeedOutsideAuthority); }
      if !logical[seed.logical].spec.addressPolicy.Permits(seed.ip) { return Err(SeedRejected); }
      candidates := candidates[Key(seed.logical, seed.ip) := CandidateState(None, true, 0)];
      SeedsNext(seeds, i);
    }
    assert seeds[..|seeds|] == seeds;
    if candidates == map[] {
      assert seeds != [] ==> HasSeed(seeds, Key(seeds[0].logical, seeds[0].ip));
      return Err(NoSeed);
    }
    return Ok(candidates);
  }

  lemma SeedsNext(seeds: seq<SeedCandidate>, i: nat)
    requires i < |seeds|
    ensures forall k :: HasSeed(seeds[..i + 1], k) <==> HasSeed(seeds[..i], k) || k == Key(seeds[i].logical, seeds[i].ip)
  {
    forall k ensures HasSeed(seeds[..i + 1], k) <==> HasSeed(seeds[..i], k) || k == Key(seeds[i].logical, seeds[i].ip) {
      if HasSeed(seeds[..i], k) {
        var j :| 0 <= j < i && seeds[..i][j] == SeedCandidate(k.logical, k.ip);
        assert seeds[..i + 1][j] == seeds[..i][j];
      }
      if HasSeed(seeds[..i + 1], k) {
        var j :| 0 <= j < i + 1 && seeds[..i + 1][j] == SeedCandidate(k.logical, k.ip);
        assert j < i ==> seeds[..i][j] == seeds[..i + 1][j];
      }
      if k == Key(seeds[i].logical, seeds[i].ip) {
        assert seeds[..i + 1][i] == SeedCandidate(k.logical, k.ip);
      }
    }
  }
}
