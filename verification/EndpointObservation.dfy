/** What one DNS observation can and cannot change, and when the next one is due. */
module EndpointObservation {
  import opened Prelude
  import opened EndpointPlan
  import opened Endpoint
  import opened EndpointInvariant

  // ------------------------------------------------------------------- effects

  /** The answer is the newest outstanding one and names only signed, permitted addresses. */
  ghost predicate Acceptable(c: Coordinator, stamp: QueryStamp, obs: Observation) {
    Current(c, stamp) && obs.Positive? && obs.records != [] &&
    forall r :: r in obs.records ==> Authorized(c.logical, Key(stamp.logical, r.ip))
  }

  ghost predicate Names(records: seq<AddressRecord>, ip: Ipv4) {
    exists r :: r in records && r.ip == ip
  }

  lemma AnswerableRecords(c: Coordinator, l: LogicalId, records: seq<AddressRecord>)
    requires l in c.logical && records != []
    ensures Answerable(c, l, Dedup(records)) <==> forall r :: r in records ==> Authorized(c.logical, Key(l, r.ip))
  {
    forall ip ensures ip in Dedup(records) <==> Names(records, ip) {
      DedupLowest(records, ip);
    }
    assert records[0] in records;
    assert Names(records, records[0].ip);
    forall r | r in records ensures r.ip in Dedup(records) {
      assert Names(records, r.ip);
    }
  }

  lemma AcceptableIff(c: Coordinator, stamp: QueryStamp, obs: Observation)
    requires Current(c, stamp) && obs.Positive? && obs.records != []
    ensures Acceptable(c, stamp, obs) <==> Answerable(Stamped(c, stamp), stamp.logical, Dedup(obs.records))
  {
    AnswerableRecords(Stamped(c, stamp), stamp.logical, obs.records);
    SpecsAuthority(c.logical, Stamped(c, stamp).logical);
  }

  /** An unacceptable answer leaves candidates, snapshot, leases and host alone. */
  lemma UnacceptableRetains(c: Coordinator, stamp: QueryStamp, obs: Observation, now: U64, entropy: U64, o: ObservationOutcome)
    requires Inv(c) && ApplyObservation(c, stamp, obs, now, entropy) == Ok(o) && !Acceptable(c, stamp, obs)
    ensures o.state == c.(logical := o.state.logical) && SameSpecs(c.logical, o.state.logical)
    ensures o.operations == [] && o.disposition != Applied
  {
    ObservationShape(c, stamp, obs, now, entropy);
    if Current(c, stamp) && obs.Positive? && obs.records != [] {
      AcceptableIff(c, stamp, obs);
      PositiveRejected(Stamped(c, stamp), stamp.logical, obs.records, now, entropy);
    }
  }

  lemma ObservedExactly(candidates: Candidates, l: LogicalId, records: seq<AddressRecord>, now: U64, k: Key)
    ensures k in Dialable(Observed(candidates, l, Dedup(records), now)) <==>
            if k.logical == l then Names(records, k.ip) else k in Dialable(candidates)
  {
    ObservedDialable(candidates, l, Dedup(records), now, k);
    DedupLowest(records, k.ip);
  }

  /** An acceptable answer makes exactly the answered addresses of its endpoint
      dialable; nothing leaves the candidate map and every lease stays. */
  lemma AcceptableApplies(c: Coordinator, stamp: QueryStamp, obs: Observation, now: U64, entropy: U64, o: ObservationOutcome)
    requires Inv(c) && ApplyObservation(c, stamp, obs, now, entropy) == Ok(o) && Acceptable(c, stamp, obs)
    ensures o.disposition == Applied && o.state.leases == c.leases && c.candidates.Keys <= o.state.candidates.Keys
    ensures forall k :: k in Dialable(o.state.candidates) <==>
              if k.logical == stamp.logical then Names(obs.records, k.ip) else k in Dialable(c.candidates)
  {
    var l, e := stamp.logical, Stamped(c, stamp);
    ObservationShape(c, stamp, obs, now, entropy);
    AcceptableIff(c, stamp, obs);
    PositiveApplied(e, l, obs.records, now, entropy);
    assert o.state.candidates == Observed(c.candidates, l, Dedup(obs.records), now);
    forall k ensures k in Dialable(o.state.candidates) <==>
               if k.logical == l then Names(obs.records, k.ip) else k in Dialable(c.candidates) {
      ObservedExactly(c.candidates, l, obs.records, now, k);
    }
  }

  /** Preparing an observation fails only for an unknown endpoint or a used-up revision. */
  lemma ObservationSucceeds(c: Coordinator, stamp: QueryStamp, obs: Observation, now: U64, entropy: U64)
    requires Inv(c)
    ensures PrepareObservation(c, stamp, obs, now, entropy).Ok? <==> stamp.logical in c.logical && c.revision < U64_MAX
  {
    if stamp.logical in c.logical {
      ObservationShape(c, stamp, obs, now, entropy);
    }
  }

  /** A stamp is spent by the first observation applied under it, and by any later query. */
  lemma StampSpent(c: Coordinator, stamp: QueryStamp, obs: Observation, now: U64, entropy: U64, o: ObservationOutcome)
    requires Inv(c) && ApplyObservation(c, stamp, obs, now, entropy) == Ok(o)
    ensures !Current(o.state, stamp)
  {
    ObservationShape(c, stamp, obs, now, entropy);
    if Current(c, stamp) && obs.Positive? && obs.records != [] {
      var e := Stamped(c, stamp);
      if Answerable(e, stamp.logical, Dedup(obs.records)) {
        PositiveApplied(e, stamp.logical, obs.records, now, entropy);
      } else {
        RejectedKeepsStamp(e, stamp.logical, obs.records, now, entropy);
      }
    }
  }

  lemma RejectedKeepsStamp(e: Coordinator, l: LogicalId, records: seq<AddressRecord>, now: U64, entropy: U64)
    requires Wellformed(e) && l in e.logical && records != [] && !Answerable(e, l, Dedup(records))
    ensures var s := ApplyPositive(e, l, records, now, entropy).state.logical;
            l in s && s[l].latestQuery == e.logical[l].latestQuery && s[l].lastApplied == e.logical[l].lastApplied
  {
    DedupLowest(records, records[0].ip);
    assert records[0].ip in Dedup(records);
    AnswerableIff(e, l, Dedup(records));
  }

  /** A query makes every earlier stamp of its endpoint stale. */
  lemma QuerySupersedes(c: Coordinator, l: LogicalId, stamp: QueryStamp)
    requires BeginQuery(c, l).Ok? && stamp.logical == l && stamp.sequence <= c.logical[l].latestQuery
    ensures !Current(BeginQuery(c, l).value.0, stamp)
    ensures c.logical[l].lastApplied <= c.logical[l].latestQuery ==> Current(BeginQuery(c, l).value.0, BeginQuery(c, l).value.1)
  {
  }

  // ------------------------------------------------------------------ schedules

  lemma {:induction false} ScaleMonotone(t: nat, a: nat, b: nat)
    requires a <= b
    ensures t * a <= t * b
  {
    if t > 0 {
      ScaleMonotone(t - 1, a, b);
      assert t * a == (t - 1) * a + a && t * b == (t - 1) * b + b;
    }
  }

  lemma ScaleAssociates(t: nat, j: nat)
    ensures t * 1_000 * j == 1_000 * (t * j)
  {
  }

  /** Seventy to ninety percent of the clamped TTL. */
  lemma JitterBounds(ttl: U32, entropy: U64)
    ensures var ms := Clamp(ttl, MIN_TTL_SECS, MAX_TTL_SECS) * 1_000;
            ms * 7 <= JitteredTtlMs(ttl, entropy) * 10 <= ms * 9
    ensures 3_500 <= JitteredTtlMs(ttl, entropy) <= 3_240_000
  {
    var t, j := Clamp(ttl, MIN_TTL_SECS, MAX_TTL_SECS), 7_000 + entropy % 2_001;
    ScaleMonotone(t, 7_000, j);
    ScaleMonotone(t, j, 9_000);
    ScaleAssociates(t, j);
    var x := t * j;
    assert SatMul64(SatMul64(t, 1_000), j) == 1_000 * x;
    assert 700 * t <= 1_000 * x / 10_000 <= 900 * t;
  }

  lemma {:induction false} Pow2Grows(m: nat, n: nat)
    requires m <= n
    ensures Pow2(m) <= Pow2(n)
  {
    if m < n { Pow2Grows(m, n - 1); }
  }

  /** The ceiling doubles from one second and stays at thirty once reached. */
  lemma CeilingGrows(a: U32, b: U32)
    requires a <= b
    ensures 1_000 <= RetryCeilingMs(a) <= RetryCeilingMs(b) <= 30_000
  {
    Pow2Grows(Min(SatSub(a, 1), 31), Min(SatSub(b, 1), 31));
  }

  lemma RetryBounds(streak: U32, entropy: U64)
    ensures 250 <= RetryDelayMs(streak, entropy) <= RetryCeilingMs(streak) <= 30_000
  {
    CeilingGrows(streak, streak);
  }

  /** The outcome schedules the next query within an hour, and strictly later unless
      the clock stands at its last instant. */
  ghost predicate DueLater(o: ObservationOutcome, l: LogicalId, now: U64) {
    && (now < o.nextRefresh <==> now < U64_MAX) && o.nextRefresh <= now + 3_240_000
    && l in o.state.logical && o.state.logical[l].nextRefresh == o.nextRefresh
  }

  lemma RetriedLater(c: Coordinator, l: LogicalId, now: U64, entropy: U64, disposition: Disposition)
    requires Wellformed(c) && l in c.logical
    ensures DueLater(Retried(c, l, now, entropy, disposition), l, now)
  {
    RetryBounds(SatAdd32(c.logical[l].failureStreak, 1), entropy);
  }

  lemma RetainedLater(c: Coordinator, l: LogicalId, now: U64, entropy: U64, ttl: Option<U32>, disposition: Disposition)
    requires Wellformed(c) && l in c.logical
    ensures DueLater(Retained(c, l, now, entropy, ttl, disposition), l, now)
  {
    forall ttl: U32 { JitterBounds(ttl, entropy); }
  }

  lemma PositiveCases(c: Coordinator, l: LogicalId, records: seq<AddressRecord>, now: U64, entropy: U64, o: ObservationOutcome) returns (ttl: U32)
    requires Wellformed(c) && l in c.logical && records != [] && o == ApplyPositive(c, l, records, now, entropy)
    ensures || o == Retried(c, l, now, entropy, o.disposition)
            || o == Retained(c, l, now, entropy, None, RetainedEmptyPositive)
            || (o.nextRefresh == SatAdd64(now, JitteredTtlMs(ttl, entropy)) && o.state == ObservedState(c, l, Dedup(records), now, o.nextRefresh))
  {
    DedupLowest(records, records[0].ip);
    assert Dedup(records)[records[0].ip] in Dedup(records).Values;
    ttl := LeastTtl(Dedup(records));
  }

  lemma PositiveLater(c: Coordinator, l: LogicalId, records: seq<AddressRecord>, now: U64, entropy: U64, o: ObservationOutcome)
    requires Wellformed(c) && l in c.logical && records != [] && o == ApplyPositive(c, l, records, now, entropy)
    ensures DueLater(o, l, now)
  {
    var ttl := PositiveCases(c, l, records, now, entropy, o);
    RetriedLater(c, l, now, entropy, o.disposition);
    RetainedLater(c, l, now, entropy, None, RetainedEmptyPositive);
    JitterBounds(ttl, entropy);
  }

  /** Every applied, retained or rejected observation is rescheduled. */
  lemma RefreshAdvances(c: Coordinator, stamp: QueryStamp, obs: Observation, now: U64, entropy: U64, o: ObservationOutcome)
    requires Inv(c) && ApplyObservation(c, stamp, obs, now, entropy) == Ok(o) && Current(c, stamp)
    ensures DueLater(o, stamp.logical, now)
  {
    var l, e := stamp.logical, Stamped(c, stamp);
    match obs
    case Positive(records) =>
      if records == [] { RetainedLater(e, l, now, entropy, None, RetainedEmptyPositive); }
      else { PositiveLater(e, l, records, now, entropy, o); }
    case NxDomain(ttl) => RetainedLater(e, l, now, entropy, ttl, RetainedNegative);
    case NoData(ttl) => RetainedLater(e, l, now, entropy, ttl, RetainedNegative);
    case TransientFailure => RetriedLater(e, l, now, entropy, RetainedNegative);
  }

  // -------------------------------------------------------------- what is written down

  /** The answer counts as a failure: none came, or it names an address that is not signed. */
  ghost predicate Failing(c: Coordinator, stamp: QueryStamp, obs: Observation) {
    obs.TransientFailure? || (obs.Positive? && obs.records != [] && !Acceptable(c, stamp, obs))
  }

  /** The addresses of an answer that are not signed. */
  ghost predicate Outsiders(c: Coordinator, l: LogicalId, records: seq<AddressRecord>, ips: set<Ipv4>) {
    l in c.logical && forall ip :: ip in ips <==> Names(records, ip) && ip !in c.logical[l].spec.authority.allowed
  }

  ghost predicate DispositionFits(c: Coordinator, stamp: QueryStamp, obs: Observation, disposition: Disposition) {
    if Acceptable(c, stamp, obs) then disposition == Applied
    else match obs
    case Positive(records) =>
      if records == [] then disposition == RetainedEmptyPositive
      else disposition.RejectedOutsideAuthority? && disposition.outside != {} && Outsiders(c, stamp.logical, records, disposition.outside)
    case _ => disposition == RetainedNegative
  }

  /** Seventy to ninety percent of the TTL after now, as far as the clock reaches. */
  ghost predicate DueFor(next: U64, now: U64, ttl: nat) {
    SatAdd64(now, ttl * 700) <= next <= SatAdd64(now, ttl * 900)
  }

  /** When the next query is due. */
  ghost predicate DueFits(c: Coordinator, stamp: QueryStamp, obs: Observation, now: U64, streak: U32, next: U64) {
    if Failing(c, stamp, obs) then SatAdd64(now, 250) <= next <= SatAdd64(now, RetryCeilingMs(streak))
    else match obs
    case Positive(records) =>
      if records == [] then DueFor(next, now, DEFAULT_NEGATIVE_TTL_SECS)
      else exists r :: r in records && (forall x :: x in records ==> r.ttl <= x.ttl) && DueFor(next, now, Clamp(r.ttl, MIN_TTL_SECS, MAX_TTL_SECS))
    case NxDomain(ttl) => DueFor(next, now, if ttl.None? then DEFAULT_NEGATIVE_TTL_SECS else Clamp(ttl.value, MIN_TTL_SECS, MAX_NEGATIVE_TTL_SECS))
    case NoData(ttl) => DueFor(next, now, if ttl.None? then DEFAULT_NEGATIVE_TTL_SECS else Clamp(ttl.value, MIN_TTL_SECS, MAX_NEGATIVE_TTL_SECS))
    case TransientFailure => false
  }

  /** What an observation under a current stamp writes down: consecutive failures raise
      the streak by one each, anything else ends it; only the entry of its own endpoint
      changes. */
  ghost predicate Booked(c: Coordinator, stamp: QueryStamp, obs: Observation, now: U64, o: ObservationOutcome)
    requires stamp.logical in c.logical
  {
    var l, s := stamp.logical, c.logical[stamp.logical];
    var streak: U32 := if !Failing(c, stamp, obs) then 0 else if s.failureStreak == U32_MAX then U32_MAX else s.failureStreak + 1;
    && o.state.logical == c.logical[l := s.(lastApplied := stamp.sequence, failureStreak := streak, nextRefresh := o.nextRefresh)]
    && DispositionFits(c, stamp, obs, o.disposition)
    && DueFits(c, stamp, obs, now, streak, o.nextRefresh)
  }

  lemma DueForJitter(ttl: U32, entropy: U64, now: U64)
    requires MIN_TTL_SECS <= ttl <= MAX_TTL_SECS
    ensures DueFor(SatAdd64(now, JitteredTtlMs(ttl, entropy)), now, ttl)
  {
    JitterBounds(ttl, entropy);
  }

  lemma JitterClamps(ttl: U32, entropy: U64)
    ensures JitteredTtlMs(ttl, entropy) == JitteredTtlMs(Clamp(ttl, MIN_TTL_SECS, MAX_TTL_SECS), entropy)
  {
  }

  lemma LeastRecord(records: seq<AddressRecord>) returns (r: AddressRecord)
    requires records != []
    ensures r in records && (forall x :: x in records ==> r.ttl <= x.ttl) && Dedup(records).Values != {} && LeastTtl(Dedup(records)) == r.ttl
  {
    var ttls := Dedup(records);
    DedupLowest(records, records[0].ip);
    assert ttls[records[0].ip] in ttls.Values;
    var least := LeastTtl(ttls);
    assert IsLeast(ttls.Values, least);
    var ip :| ip in ttls && ttls[ip] == least;
    DedupLowest(records, ip);
    r := AddressRecord(ip, ttls[ip]);
    forall x | x in records ensures r.ttl <= x.ttl {
      DedupLowest(records, x.ip);
      assert x.ip in ttls && ttls[x.ip] <= x.ttl;
      assert ttls[x.ip] in ttls.Values;
    }
  }

  lemma NegativeBooked(c: Coordinator, stamp: QueryStamp, obs: Observation, now: U64, entropy: U64, o: ObservationOutcome)
    requires Inv(c) && ApplyObservation(c, stamp, obs, now, entropy) == Ok(o) && Current(c, stamp)
    requires !obs.TransientFailure? && (obs.Positive? ==> obs.records == [])
    ensures Booked(c, stamp, obs, now, o)
  {
    var ttl := match obs case NxDomain(t) => t case NoData(t) => t case _ => None;
    assert !Failing(c, stamp, obs) && !Acceptable(c, stamp, obs);
    DueForJitter(Clamp(if ttl.None? then DEFAULT_NEGATIVE_TTL_SECS else ttl.value, MIN_TTL_SECS, MAX_NEGATIVE_TTL_SECS), entropy, now);
  }

  lemma FailedBooked(c: Coordinator, stamp: QueryStamp, now: U64, entropy: U64, o: ObservationOutcome)
    requires Inv(c) && ApplyObservation(c, stamp, TransientFailure, now, entropy) == Ok(o) && Current(c, stamp)
    ensures Booked(c, stamp, TransientFailure, now, o)
  {
    assert Failing(c, stamp, TransientFailure) && !Acceptable(c, stamp, TransientFailure);
    RetryBounds(SatAdd32(c.logical[stamp.logical].failureStreak, 1), entropy);
  }

  /** With a signed authority that the policy permits, only an address outside it is refused. */
  lemma RejectedIs(e: Coordinator, l: LogicalId, records: seq<AddressRecord>, now: U64, entropy: U64, bad: AddressRecord) returns (outside: set<Ipv4>)
    requires Wellformed(e) && l in e.logical && bad in records && bad.ip !in e.logical[l].spec.authority.allowed
    ensures outside != {} && Outsiders(e, l, records, outside)
    ensures ApplyPositive(e, l, records, now, entropy) == Retried(e, l, now, entropy, RejectedOutsideAuthority(outside))
  {
    var ttls := Dedup(records);
    forall ip ensures ip in ttls <==> Names(records, ip) { DedupLowest(records, ip); }
    assert Names(records, bad.ip);
    outside := set ip | ip in ttls && ip !in e.logical[l].spec.authority.allowed;
    assert bad.ip in outside;
  }

  lemma RejectedBooked(c: Coordinator, stamp: QueryStamp, obs: Observation, now: U64, entropy: U64, o: ObservationOutcome)
    requires Inv(c) && ApplyObservation(c, stamp, obs, now, entropy) == Ok(o) && Current(c, stamp)
    requires obs.Positive? && obs.records != [] && !Acceptable(c, stamp, obs)
    ensures Booked(c, stamp, obs, now, o)
  {
    var l, e := stamp.logical, Stamped(c, stamp);
    ObservationShape(c, stamp, obs, now, entropy);
    var bad :| bad in obs.records && !Authorized(c.logical, Key(l, bad.ip));
    if bad.ip in c.logical[l].spec.authority.allowed { SignedAuthorized(c, Key(l, bad.ip)); }
    var outside := RejectedIs(e, l, obs.records, now, entropy, bad);
    RetryBounds(SatAdd32(c.logical[l].failureStreak, 1), entropy);
  }

  lemma SignedAuthorized(c: Coordinator, k: Key)
    requires Inv(c) && k.logical in c.logical && k.ip in c.logical[k.logical].spec.authority.allowed
    ensures Authorized(c.logical, k)
  {
    AuthorityKeysMember(c.logical, k);
  }

  lemma AppliedBooked(c: Coordinator, stamp: QueryStamp, obs: Observation, now: U64, entropy: U64, o: ObservationOutcome)
    requires Inv(c) && ApplyObservation(c, stamp, obs, now, entropy) == Ok(o) && Current(c, stamp) && Acceptable(c, stamp, obs)
    ensures Booked(c, stamp, obs, now, o)
  {
    var l, e := stamp.logical, Stamped(c, stamp);
    ObservationShape(c, stamp, obs, now, entropy);
    AcceptableIff(c, stamp, obs);
    PositiveApplied(e, l, obs.records, now, entropy);
    var r := LeastRecord(obs.records);
    JitterClamps(r.ttl, entropy);
    DueForJitter(Clamp(r.ttl, MIN_TTL_SECS, MAX_TTL_SECS), entropy, now);
    AnswerableIff(e, l, Dedup(obs.records));
  }

  lemma ObservationBooked(c: Coordinator, stamp: QueryStamp, obs: Observation, now: U64, entropy: U64, o: ObservationOutcome)
    requires Inv(c) && ApplyObservation(c, stamp, obs, now, entropy) == Ok(o) && Current(c, stamp)
    ensures Booked(c, stamp, obs, now, o)
  {
    if obs.Positive? && obs.records != [] {
      if Acceptable(c, stamp, obs) { AppliedBooked(c, stamp, obs, now, entropy, o); } else { RejectedBooked(c, stamp, obs, now, entropy, o); }
    } else if obs.TransientFailure? {
      FailedBooked(c, stamp, now, entropy, o);
    } else {
      NegativeBooked(c, stamp, obs, now, entropy, o);
    }
  }

  /** An answer that is not the newest outstanding one changes nothing at all. */
  lemma StaleIgnored(c: Coordinator, stamp: QueryStamp, obs: Observation, now: U64, entropy: U64, o: ObservationOutcome)
    requires Inv(c) && ApplyObservation(c, stamp, obs, now, entropy) == Ok(o) && !Current(c, stamp)
    ensures o.state == c && o.disposition == IgnoredOutOfOrder && o.operations == []
    ensures stamp.logical in c.logical && o.nextRefresh == c.logical[stamp.logical].nextRefresh
  {
  }

  /** Every candidate after an applied answer: the answered ones are good for their lowest
      TTL, the other ones of the endpoint are depublished, the rest is as it was. */
  lemma AnsweredCandidates(c: Coordinator, stamp: QueryStamp, obs: Observation, now: U64, entropy: U64, o: ObservationOutcome, k: Key)
    requires Inv(c) && ApplyObservation(c, stamp, obs, now, entropy) == Ok(o) && Acceptable(c, stamp, obs)
    ensures k in o.state.candidates <==> k in c.candidates || (k.logical == stamp.logical && Names(obs.records, k.ip))
    ensures k.logical != stamp.logical && k in c.candidates ==> o.state.candidates[k] == c.candidates[k]
    ensures k.logical == stamp.logical && !Names(obs.records, k.ip) && k in c.candidates ==> o.state.candidates[k] == c.candidates[k].(dialable := false)
    ensures k.logical == stamp.logical && Names(obs.records, k.ip) ==>
              exists ttl: U32 :: LowestFor(obs.records, k.ip, ttl) &&
                o.state.candidates[k] == CandidateState(Some(SatAdd64(now, Clamp(ttl, MIN_TTL_SECS, MAX_TTL_SECS) * 1_000)), true,
                                                        if k in c.candidates then c.candidates[k].leases else 0)
  {
    var l, e := stamp.logical, Stamped(c, stamp);
    ObservationShape(c, stamp, obs, now, entropy);
    AcceptableIff(c, stamp, obs);
    PositiveApplied(e, l, obs.records, now, entropy);
    assert o.state.candidates == Observed(c.candidates, l, Dedup(obs.records), now);
    DedupLowest(obs.records, k.ip);
    if k.logical == l && Names(obs.records, k.ip) {
      assert LowestFor(obs.records, k.ip, Dedup(obs.records)[k.ip]);
    }
  }

  // --------------------------------------------------------------------- the back-off

  /** One second after the first failure, doubled by each one that follows, up to thirty. */
  lemma CeilingDoubles(streak: U32)
    requires streak < U32_MAX
    ensures RetryCeilingMs(1) == 1_000
    ensures 1 <= streak ==> RetryCeilingMs(streak + 1) == Min(2 * RetryCeilingMs(streak), 30_000)
  {
    if 32 <= streak {
      Pow2Grows(5, 31);
    } else if 6 <= streak {
      Pow2Grows(5, streak - 1);
    }
  }

  /** Every delay of the range is drawn for some entropy. */
  lemma RetryDrawn(streak: U32, delay: nat)
    requires 250 <= delay <= RetryCeilingMs(streak)
    ensures RetryDelayMs(streak, delay - 250) == delay
  {
    CeilingGrows(streak, streak);
    SmallRemainder(delay - 250, RetryCeilingMs(streak) - 249);
  }

  lemma SmallRemainder(x: nat, m: nat)
    requires x < m
    ensures x % m == x
  {
  }

  lemma JitterDrawn(ttl: U32, tenThousandth: nat)
    requires 7_000 <= tenThousandth <= 9_000
    ensures JitteredTtlMs(ttl, tenThousandth - 7_000) == Clamp(ttl, MIN_TTL_SECS, MAX_TTL_SECS) * tenThousandth / 10
  {
    var t := Clamp(ttl, MIN_TTL_SECS, MAX_TTL_SECS);
    ScaleAssociates(t, tenThousandth);
    ScaleMonotone(t, tenThousandth, 9_000);
  }
}
