/** The live endpoint coordinator as a value: its state, and every transition it
    can prepare, as functions of that state. */
module Endpoint {
  import opened Prelude
  import opened Ordered
  import opened Names
  import opened EndpointPlan

  const MIN_TTL_SECS: U32 := 5
  const MAX_TTL_SECS: U32 := 3_600
  const DEFAULT_NEGATIVE_TTL_SECS: U32 := 30
  const MAX_NEGATIVE_TTL_SECS: U32 := 300
  const RETRY_BASE_MS: U64 := 1_000
  const RETRY_CAP_MS: U64 := 30_000

  datatype Key = Key(logical: LogicalId, ip: Ipv4)

  function KeyRank(k: Key): int {
    k.logical * 0x1_0000_0000 + k.ip
  }

  lemma KeyRankInjective()
    ensures forall s: set<Key> :: InjectiveOn(s, KeyRank)
  {
  }

  lemma SortedKeysExist(s: set<Key>)
    ensures exists r :: (forall x :: x in r <==> x in s) && StrictlySorted(r, KeyRank)
  {
    KeyRankInjective();
    var r := Ascending(s, KeyRank);
  }

  /** The iteration order of the candidate map. */
  ghost function SortedKeys(s: set<Key>): (r: seq<Key>)
    ensures forall x :: x in r <==> x in s
    ensures StrictlySorted(r, KeyRank)
  {
    SortedKeysExist(s);
    var r :| (forall x :: x in r <==> x in s) && StrictlySorted(r, KeyRank);
    r
  }

  // ------------------------------------------------------------------ entities

  datatype Authority = Authority(generation: U64, allowed: set<Ipv4>)

  datatype AddressPolicy = AddressPolicy(allowPrivate: bool) {
    predicate Permits(ip: Ipv4) {
      && ip != 0                                 // unspecified
      && !(0x7f00_0000 <= ip <= 0x7fff_ffff)     // 127.0.0.0/8 loopback
      && !(0xa9fe_0000 <= ip <= 0xa9fe_ffff)     // 169.254.0.0/16 link local
      && !(0xe000_0000 <= ip <= 0xefff_ffff)     // 224.0.0.0/4 multicast
      && ip != 0xffff_ffff                       // broadcast
      && (allowPrivate ||
          !(0x0a00_0000 <= ip <= 0x0aff_ffff ||  // 10.0.0.0/8
            0xac10_0000 <= ip <= 0xac1f_ffff ||  // 172.16.0.0/12
            0xc0a8_0000 <= ip <= 0xc0a8_ffff))   // 192.168.0.0/16
    }
  }

  /** By octets: no unspecified, loopback, link-local, multicast or broadcast address, and a
      private one only where the policy says so. */
  lemma PermitsOctets(policy: AddressPolicy, a: U8, b: U8, c: U8, d: U8, ip: Ipv4)
    requires ip == a * 0x100_0000 + b * 0x1_0000 + c * 0x100 + d
    ensures policy.Permits(ip) <==>
            && !(a == b == c == d == 0) && a != 127 && !(a == 169 && b == 254) && !(224 <= a <= 239) && !(a == b == c == d == 255)
            && (policy.allowPrivate || !(a == 10 || (a == 172 && 16 <= b <= 31) || (a == 192 && b == 168)))
  {
  }

  datatype LogicalEndpoint = LogicalEndpoint(
    id: LogicalId, hostname: Bytes, port: U16, protocol: Protocol, auth: U32,
    authority: Authority, addressPolicy: AddressPolicy)
  {
    function TupleAt(ip: Ipv4): Tuple { Tuple(ip, port, protocol) }
  }

  datatype SeedCandidate = SeedCandidate(logical: LogicalId, ip: Ipv4)

  datatype AddressRecord = AddressRecord(ip: Ipv4, ttl: U32)

  datatype Observation =
    | Positive(records: seq<AddressRecord>)
    | NxDomain(negativeTtl: Option<U32>)
    | NoData(negativeTtl: Option<U32>)
    | TransientFailure

  datatype QueryStamp = QueryStamp(logical: LogicalId, sequence: U64)

  datatype DialCandidate = DialCandidate(
    key: Key, ip: Ipv4, port: U16, protocol: Protocol, auth: U32, authorityGeneration: U64)

  datatype DialSnapshot = DialSnapshot(generation: U64, candidates: seq<DialCandidate>)

  datatype Disposition =
    | Applied
    | RetainedNegative
    | RetainedEmptyPositive
    | RejectedOutsideAuthority(outside: set<Ipv4>)
    | RejectedAddressPolicy(rejected: set<Ipv4>)
    | IgnoredOutOfOrder

  datatype Lease = Lease(id: U64, key: Key)

  datatype CandidateState = CandidateState(validUntil: Option<U64>, dialable: bool, leases: U32)

  datatype LogicalState = LogicalState(
    spec: LogicalEndpoint, latestQuery: U64, lastApplied: U64, failureStreak: U32, nextRefresh: U64)

  type Logicals = map<LogicalId, LogicalState>
  type Candidates = map<Key, CandidateState>

  datatype Coordinator = Coordinator(
    revision: U64, logical: Logicals, candidates: Candidates, leases: map<U64, Key>,
    nextLeaseId: U64, snapshot: DialSnapshot)

  /** A projected transition: the revision it was computed against, the state it
      leads to and the host operations that must be executed for it. */
  datatype Prepared = Prepared(base: U64, projected: Coordinator, operations: seq<Op>)

  datatype Error =
    | BadHostname | ZeroPort | AuthorityRejected | DuplicateLogical | NoLogical
    | UnknownSeed | SeedOutsideAuthority | SeedRejected | NoSeed
    | RevisionExhausted | UnknownLogical | SequenceExhausted
    | LeaseIdExhausted | DuplicateLeaseId | CandidateAbsent | CandidateRetiring | LeaseOverflow
    | UnknownLease | LeaseKeyMismatch | LeasedCandidateGone | LeaseUnderflow
    | RehydrationUnchanged | GenerationExhausted | NonMonotonicRehydration | UnsafeOrder
    | Stale

  // ---------------------------------------------------------- derived structure

  ghost predicate KeysKnown(logical: Logicals, keys: set<Key>) {
    forall k :: k in keys ==> k.logical in logical
  }

  /** Host access owned by a set of candidates; endpoints may share a tuple or
      an address, and the sets then hold it once. */
  ghost function Access(logical: Logicals, keys: set<Key>): Host
    requires KeysKnown(logical, keys)
  {
    Host(set k | k in keys :: logical[k.logical].spec.TupleAt(k.ip), set k | k in keys :: k.ip)
  }

  ghost function Dialable(candidates: Candidates): set<Key> {
    set k | k in candidates && candidates[k].dialable
  }

  function Dial(logical: Logicals, k: Key): DialCandidate
    requires k.logical in logical
  {
    var spec := logical[k.logical].spec;
    DialCandidate(k, k.ip, spec.port, spec.protocol, spec.auth, spec.authority.generation)
  }

  function DialRank(d: DialCandidate): int { KeyRank(d.key) }

  /** `r` lists exactly the dialable candidates, in key order. */
  ghost predicate IsDialList(logical: Logicals, candidates: Candidates, r: seq<DialCandidate>)
    requires KeysKnown(logical, candidates.Keys)
  {
    StrictlySorted(r, DialRank) &&
    forall d :: d in r <==> d.key in Dialable(candidates) && d == Dial(logical, d.key)
  }

  lemma DialListExists(logical: Logicals, candidates: Candidates)
    requires KeysKnown(logical, candidates.Keys)
    ensures exists r :: IsDialList(logical, candidates, r)
  {
    var ks := SortedKeys(Dialable(candidates));
    assert forall i :: 0 <= i < |ks| ==> ks[i] in ks;
    var r := seq(|ks|, i requires 0 <= i < |ks| => Dial(logical, ks[i]));
    assert forall i :: 0 <= i < |ks| ==> r[i].key == ks[i];
    forall d | d in r ensures d.key in Dialable(candidates) && d == Dial(logical, d.key) {
      var i :| 0 <= i < |r| && r[i] == d;
    }
    forall d: DialCandidate | d.key in Dialable(candidates) && d == Dial(logical, d.key) ensures d in r {
      var i :| 0 <= i < |ks| && ks[i] == d.key;
      assert r[i] == d;
    }
    assert IsDialList(logical, candidates, r);
  }

  /** `build_snapshot`: the dialable candidates in key order. */
  ghost function DialList(logical: Logicals, candidates: Candidates): (r: seq<DialCandidate>)
    requires KeysKnown(logical, candidates.Keys)
    ensures IsDialList(logical, candidates, r)
  {
    DialListExists(logical, candidates);
    var r :| IsDialList(logical, candidates, r);
    r
  }

  ghost function Plan(logical: Logicals, from: Candidates, to: Candidates, publish: Marker): seq<Op>
    requires KeysKnown(logical, from.Keys) && KeysKnown(logical, to.Keys)
  {
    Transition(Access(logical, from.Keys), Access(logical, to.Keys), publish)
  }

  // ------------------------------------------------------------ time arithmetic

  function JitteredTtlMs(ttl: U32, entropy: U64): U64 {
    SatMul64(SatMul64(Clamp(ttl, MIN_TTL_SECS, MAX_TTL_SECS), 1_000), 7_000 + entropy % 2_001) / 10_000
  }

  function Pow2(n: nat): (p: nat)
    ensures p >= 1
  {
    if n == 0 then 1 else 2 * Pow2(n - 1)
  }

  function RetryCeilingMs(streak: U32): nat {
    var shift := Min(SatSub(streak, 1), 31);
    Min(RETRY_BASE_MS * Pow2(shift), RETRY_CAP_MS)
  }

  function RetryDelayMs(streak: U32, entropy: U64): nat {
    var ceiling := RetryCeilingMs(streak);
    250 + entropy % Max(SatSub(ceiling, 249), 1)
  }

  // ------------------------------------------------------------------ transitions

  ghost predicate HasSeed(seeds: seq<SeedCandidate>, k: Key) {
    exists j :: 0 <= j < |seeds| && seeds[j] == SeedCandidate(k.logical, k.ip)
  }

  predicate ValidHostname(hostname: Bytes) {
    var name := TrimDots(hostname);
    name != [] && |name| <= 253 &&
    forall j :: 0 <= j < |Split(name)| ==> 1 <= |Split(name)[j]| <= 63
  }

  ghost predicate ValidEndpoint(e: LogicalEndpoint) {
    ValidHostname(e.hostname) && e.port != 0 &&
    forall ip :: ip in e.authority.allowed ==> e.addressPolicy.Permits(ip)
  }

  ghost predicate SeedFits(endpoints: seq<LogicalEndpoint>, seed: SeedCandidate) {
    exists j :: 0 <= j < |endpoints| && endpoints[j].id == seed.logical &&
                seed.ip in endpoints[j].authority.allowed && endpoints[j].addressPolicy.Permits(seed.ip)
  }

  /** What `new` accepts. */
  ghost predicate Accepts(endpoints: seq<LogicalEndpoint>, seeds: seq<SeedCandidate>) {
    && endpoints != [] && seeds != []
    && (forall j :: 0 <= j < |endpoints| ==> ValidEndpoint(endpoints[j]))
    && (forall i, j :: 0 <= i < j < |endpoints| ==> endpoints[i].id != endpoints[j].id)
    && (forall j :: 0 <= j < |seeds| ==> SeedFits(endpoints, seeds[j]))
  }

  /** `new`: one unqueried state per endpoint, exactly the seeds as dialable
      candidates, and the first snapshot. */
  ghost predicate IsInitial(c: Coordinator, endpoints: seq<LogicalEndpoint>, seeds: seq<SeedCandidate>, now: U64) {
    && Wellformed(c)
    && c.revision == 1 && c.leases == map[] && c.nextLeaseId == 1
    && (forall id :: id in c.logical <==> exists j :: 0 <= j < |endpoints| && endpoints[j].id == id)
    && (forall j :: 0 <= j < |endpoints| ==>
          endpoints[j].id in c.logical &&
          c.logical[endpoints[j].id] == LogicalState(endpoints[j], 0, 0, 0, SatAdd64(now, 5_000)))
    && (forall k :: k in c.candidates <==> HasSeed(seeds, k))
    && (forall k :: k in c.candidates ==> c.candidates[k] == CandidateState(None, true, 0))
    && c.snapshot == DialSnapshot(1, DialList(c.logical, c.candidates))
  }

  function BeginQuery(c: Coordinator, l: LogicalId): Result<(Coordinator, QueryStamp), Error> {
    if c.revision == U64_MAX then Err(RevisionExhausted)
    else if l !in c.logical then Err(UnknownLogical)
    else if c.logical[l].latestQuery == U64_MAX then Err(SequenceExhausted)
    else
      var sequence := c.logical[l].latestQuery + 1;
      Ok((c.(revision := c.revision + 1, logical := c.logical[l := c.logical[l].(latestQuery := sequence)]),
          QueryStamp(l, sequence)))
  }

  function Acquire(c: Coordinator, k: Key): Result<(Coordinator, Lease), Error> {
    if c.revision == U64_MAX then Err(RevisionExhausted)
    else if c.nextLeaseId == U64_MAX then Err(LeaseIdExhausted)
    else if c.nextLeaseId in c.leases then Err(DuplicateLeaseId)
    else if k !in c.candidates then Err(CandidateAbsent)
    else if !c.candidates[k].dialable then Err(CandidateRetiring)
    else if c.candidates[k].leases == U32_MAX then Err(LeaseOverflow)
    else
      Ok((c.(revision := c.revision + 1,
             nextLeaseId := c.nextLeaseId + 1,
             leases := c.leases[c.nextLeaseId := k],
             candidates := c.candidates[k := c.candidates[k].(leases := c.candidates[k].leases + 1)]),
          Lease(c.nextLeaseId, k)))
  }

  /** Lowest TTL per address. */
  function Dedup(records: seq<AddressRecord>): map<Ipv4, U32> {
    if records == [] then map[] else
      var init, last := records[..|records| - 1], records[|records| - 1];
      var m := Dedup(init);
      m[last.ip := if last.ip in m then Min(m[last.ip], last.ttl) else last.ttl]
  }

  /** `ttl` is the lowest among the records for `ip`. */
  ghost predicate LowestFor(records: seq<AddressRecord>, ip: Ipv4, ttl: U32) {
    AddressRecord(ip, ttl) in records &&
    forall r :: r in records && r.ip == ip ==> ttl <= r.ttl
  }

  lemma {:induction false} DedupLowest(records: seq<AddressRecord>, ip: Ipv4)
    ensures ip in Dedup(records) <==> exists r :: r in records && r.ip == ip
    ensures ip in Dedup(records) ==> LowestFor(records, ip, Dedup(records)[ip])
  {
    if records != [] {
      var init, last := records[..|records| - 1], records[|records| - 1];
      assert records == init + [last];
      DedupLowest(init, ip);
    }
  }

  ghost predicate IsLeast(s: set<U32>, r: U32) {
    r in s && forall y :: y in s ==> r <= y
  }

  lemma {:induction false} LeastTtlExists(s: set<U32>)
    requires s != {}
    ensures exists r :: IsLeast(s, r)
  {
    var x :| x in s;
    if s == {x} {
      assert IsLeast(s, x);
    } else {
      LeastTtlExists(s - {x});
      var m :| IsLeast(s - {x}, m);
      assert forall y :: y in s ==> y == x || y in s - {x};
      assert IsLeast(s, if x <= m then x else m);
    }
  }

  ghost function LeastTtl(ttls: map<Ipv4, U32>): (r: U32)
    requires ttls.Values != {}
    ensures IsLeast(ttls.Values, r)
  {
    LeastTtlExists(ttls.Values);
    var r :| IsLeast(ttls.Values, r);
    r
  }

  function Observed(candidates: Candidates, l: LogicalId, ttls: map<Ipv4, U32>, now: U64): Candidates {
    map k | k in candidates.Keys + (set ip | ip in ttls :: Key(l, ip)) ::
      if k.logical != l then candidates[k]
      else if k.ip !in ttls then candidates[k].(dialable := false)
      else CandidateState(
        Some(SatAdd64(now, SatMul64(Clamp(ttls[k.ip], MIN_TTL_SECS, MAX_TTL_SECS), 1_000))),
        true,
        if k in candidates then candidates[k].leases else 0)
  }

  datatype ObservationOutcome = ObservationOutcome(
    state: Coordinator, disposition: Disposition, operations: seq<Op>, nextRefresh: U64)

  /** An observation that changes only the schedule of one logical endpoint. */
  function Rescheduled(c: Coordinator, l: LogicalId, streak: U32, delay: nat, disposition: Disposition): ObservationOutcome
    requires l in c.logical
  {
    var next := SatAdd64(0, delay);
    var state := c.logical[l].(failureStreak := streak, nextRefresh := next);
    ObservationOutcome(c.(logical := c.logical[l := state]), disposition, [], next)
  }

  function Retained(c: Coordinator, l: LogicalId, now: U64, entropy: U64, ttl: Option<U32>, disposition: Disposition): ObservationOutcome
    requires l in c.logical
  {
    var ttl := Clamp(if ttl.None? then DEFAULT_NEGATIVE_TTL_SECS else ttl.value, MIN_TTL_SECS, MAX_NEGATIVE_TTL_SECS);
    Rescheduled(c, l, 0, now + JitteredTtlMs(ttl, entropy), disposition)
  }

  function Retried(c: Coordinator, l: LogicalId, now: U64, entropy: U64, disposition: Disposition): ObservationOutcome
    requires l in c.logical
  {
    var streak := SatAdd32(c.logical[l].failureStreak, 1);
    Rescheduled(c, l, streak, now + RetryDelayMs(streak, entropy), disposition)
  }

  ghost predicate Wellformed(c: Coordinator) {
    KeysKnown(c.logical, c.candidates.Keys)
  }

  /** The snapshot after an applied answer: a new generation exactly for a new list. */
  function NextDial(snapshot: DialSnapshot, view: seq<DialCandidate>): DialSnapshot {
    if snapshot.candidates == view then snapshot else DialSnapshot(SatAdd64(snapshot.generation, 1), view)
  }

  /** The state after an applied positive answer. */
  ghost function ObservedState(c: Coordinator, l: LogicalId, ttls: map<Ipv4, U32>, now: U64, next: U64): Coordinator
    requires Wellformed(c) && l in c.logical
  {
    var candidates := Observed(c.candidates, l, ttls, now);
    var logical := c.logical[l := c.logical[l].(failureStreak := 0, nextRefresh := next)];
    assert KeysKnown(logical, candidates.Keys);
    var view := DialList(logical, candidates);
    c.(logical := logical, candidates := candidates,
       snapshot := NextDial(c.snapshot, view))
  }

  function MarkerFor(c: Coordinator, d: Coordinator): Marker {
    if c.snapshot.candidates == d.snapshot.candidates then NoPublication
    else Publication(c.snapshot.generation, d.snapshot.generation)
  }

  ghost function ApplyPositive(c: Coordinator, l: LogicalId, records: seq<AddressRecord>, now: U64, entropy: U64): ObservationOutcome
    requires Wellformed(c) && l in c.logical && records != []
  {
    var spec := c.logical[l].spec;
    var ttls := Dedup(records);
    var outside := set ip | ip in ttls && ip !in spec.authority.allowed;
    var rejected := set ip | ip in ttls && !spec.addressPolicy.Permits(ip);
    if outside != {} then Retried(c, l, now, entropy, RejectedOutsideAuthority(outside))
    else if rejected != {} then Retried(c, l, now, entropy, RejectedAddressPolicy(rejected))
    else if Dialable(Observed(c.candidates, l, ttls, now)) == {} then
      Retained(c, l, now, entropy, None, RetainedEmptyPositive)
    else
      DedupLowest(records, records[0].ip);
      assert ttls[records[0].ip] in ttls.Values;
      var next := SatAdd64(now, JitteredTtlMs(LeastTtl(ttls), entropy));
      var d := ObservedState(c, l, ttls, now, next);
      ObservationOutcome(d, Applied, Plan(d.logical, c.candidates, d.candidates, MarkerFor(c, d)), next)
  }

  ghost function ApplyObservation(c: Coordinator, stamp: QueryStamp, obs: Observation, now: U64, entropy: U64): Result<ObservationOutcome, Error>
    requires Wellformed(c)
  {
    var l := stamp.logical;
    if l !in c.logical then Err(UnknownLogical)
    else if stamp.sequence != c.logical[l].latestQuery || stamp.sequence <= c.logical[l].lastApplied then
      Ok(ObservationOutcome(c, IgnoredOutOfOrder, [], c.logical[l].nextRefresh))
    else
      var c := c.(logical := c.logical[l := c.logical[l].(lastApplied := stamp.sequence)]);
      match obs
      case Positive(records) =>
        if records == [] then Ok(Retained(c, l, now, entropy, None, RetainedEmptyPositive))
        else Ok(ApplyPositive(c, l, records, now, entropy))
      case NxDomain(ttl) => Ok(Retained(c, l, now, entropy, ttl, RetainedNegative))
      case NoData(ttl) => Ok(Retained(c, l, now, entropy, ttl, RetainedNegative))
      case TransientFailure => Ok(Retried(c, l, now, entropy, RetainedNegative))
  }

  ghost function PrepareObservation(c: Coordinator, stamp: QueryStamp, obs: Observation, now: U64, entropy: U64): Result<Prepared, Error>
    requires Wellformed(c)
  {
    var outcome := ApplyObservation(c, stamp, obs, now, entropy);
    if outcome.Err? then Err(outcome.error)
    else if c.revision == U64_MAX then Err(RevisionExhausted)
    else Ok(Prepared(c.revision, outcome.value.state.(revision := c.revision + 1), outcome.value.operations))
  }

  /** Every candidate the signed authority admits. */
  function AuthorityKeys(logical: Logicals): set<Key> {
    set l, ip | l in logical && ip in logical[l].spec.authority.allowed :: Key(l, ip)
  }

  function Rehydrated(logical: Logicals, candidates: Candidates): Candidates {
    map k | k in candidates.Keys + AuthorityKeys(logical) ::
      if k in candidates && (candidates[k].dialable || k !in AuthorityKeys(logical)) then candidates[k]
      else if k in candidates then candidates[k].(dialable := true, validUntil := None)
      else CandidateState(None, true, 0)
  }

  /** Authority keys that are not dialable. */
  ghost function Revived(logical: Logicals, candidates: Candidates): set<Key> {
    AuthorityKeys(logical) - Dialable(candidates)
  }

  predicate IsRemoval(op: Op) { op.Deny? || op.RemoveBypass? }

  /** The state in which the whole signed authority is published. */
  ghost function RehydratedState(c: Coordinator): Coordinator
    requires Wellformed(c) && c.revision < U64_MAX && c.snapshot.generation < U64_MAX
  {
    var candidates := Rehydrated(c.logical, c.candidates);
    c.(revision := c.revision + 1,
       candidates := candidates,
       snapshot := DialSnapshot(c.snapshot.generation + 1, DialList(c.logical, candidates)))
  }

  ghost function RehydrationPlan(c: Coordinator): seq<Op>
    requires Wellformed(c) && c.snapshot.generation < U64_MAX
  {
    Plan(c.logical, c.candidates, Rehydrated(c.logical, c.candidates),
         Publication(c.snapshot.generation, c.snapshot.generation + 1))
  }

  ghost function PrepareRehydration(c: Coordinator): Result<Prepared, Error>
    requires Wellformed(c)
  {
    if Revived(c.logical, c.candidates) == {} then Ok(Prepared(c.revision, c, []))
    else if DialList(c.logical, Rehydrated(c.logical, c.candidates)) == c.snapshot.candidates then Err(RehydrationUnchanged)
    else if c.snapshot.generation == U64_MAX then Err(GenerationExhausted)
    else if exists op :: op in RehydrationPlan(c) && IsRemoval(op) then Err(NonMonotonicRehydration)
    else if c.revision == U64_MAX then Err(RevisionExhausted)
    else Ok(Prepared(c.revision, RehydratedState(c), RehydrationPlan(c)))
  }

  ghost function PrepareRelease(c: Coordinator, lease: Lease): Result<Prepared, Error>
    requires Wellformed(c)
  {
    if lease.id !in c.leases then Err(UnknownLease)
    else if c.leases[lease.id] != lease.key then Err(LeaseKeyMismatch)
    else if lease.key !in c.candidates then Err(LeasedCandidateGone)
    else if c.candidates[lease.key].leases == 0 then Err(LeaseUnderflow)
    else if c.revision == U64_MAX then Err(RevisionExhausted)
    else
      var state := c.candidates[lease.key].(leases := c.candidates[lease.key].leases - 1);
      var candidates := if state.leases == 0 && !state.dialable then c.candidates - {lease.key} else c.candidates[lease.key := state];
      Ok(Prepared(c.revision,
                  c.(revision := c.revision + 1, leases := c.leases - {lease.id}, candidates := candidates),
                  Plan(c.logical, c.candidates, candidates, NoPublication)))
  }

  /** Depublished candidates without a live lease. */
  function Retirable(candidates: Candidates): set<Key> {
    set k | k in candidates && !candidates[k].dialable && candidates[k].leases == 0
  }

  ghost function PrepareRetirement(c: Coordinator): Result<Option<Prepared>, Error>
    requires Wellformed(c)
  {
    if Retirable(c.candidates) == {} then Ok(None)
    else if c.revision == U64_MAX then Err(RevisionExhausted)
    else
      var candidates := c.candidates - Retirable(c.candidates);
      Ok(Some(Prepared(c.revision, c.(revision := c.revision + 1, candidates := candidates),
                       Plan(c.logical, c.candidates, candidates, NoPublication))))
  }

  /** Commit of any prepared transition: only against the revision it saw. */
  function Commit(c: Coordinator, p: Prepared): Result<Coordinator, Error> {
    if c.revision != p.base then Err(Stale) else Ok(p.projected)
  }
}
