/** The coordinator as the single-owner object it is: fields updated in place,
    prepared transitions worked out on a clone. Each method is proved to compute
    the value function of the same name. */
module EndpointCoordination {
  import opened Prelude
  import opened EndpointPlan
  import opened Endpoint
  import opened EndpointInvariant
  import opened EndpointLoops

  lemma ObservationPrepared(c: Coordinator, stamp: QueryStamp, obs: Observation, now: U64, entropy: U64, o: ObservationOutcome, d: Coordinator)
    requires Wellformed(c) && ApplyObservation(c, stamp, obs, now, entropy) == Ok(o)
    requires c.revision < U64_MAX && d == o.state.(revision := c.revision + 1)
    ensures Endpoint.PrepareObservation(c, stamp, obs, now, entropy) == Ok(Prepared(c.revision, d, o.operations))
  {
  }

  class EndpointCoordinator {
    var revision: U64
    var logical: Logicals
    var candidates: Candidates
    var leases: map<U64, Key>
    var nextLeaseId: U64
    var snapshot: DialSnapshot

    ghost function View(): Coordinator
      reads this
    {
      Coordinator(revision, logical, candidates, leases, nextLeaseId, snapshot)
    }

    ghost predicate Valid()
      reads this
    {
      Inv(View())
    }

    constructor Copy(c: Coordinator)
      ensures View() == c
    {
      revision, logical, candidates, leases, nextLeaseId, snapshot :=
        c.revision, c.logical, c.candidates, c.leases, c.nextLeaseId, c.snapshot;
    }

    /** `new`: succeeds exactly on an acceptable configuration. */
    static method New(endpoints: seq<LogicalEndpoint>, seeds: seq<SeedCandidate>, now: U64) returns (r: Result<EndpointCoordinator, Error>)
      ensures r.Ok? <==> Accepts(endpoints, seeds)
      ensures r.Ok? ==> fresh(r.value) && r.value.Valid() && IsInitial(r.value.View(), endpoints, seeds, now)
    {
      var logical := RegisterEndpoints(endpoints, now);
      if logical.Err? { return Err(logical.error); }
      var candidates := RegisterSeeds(endpoints, logical.value, seeds, now);
      if candidates.Err? { return Err(candidates.error); }
      var snapshot := BuildSnapshot(1, logical.value, candidates.value);
      var c := Coordinator(1, logical.value, candidates.value, map[], 1, snapshot);
      assert IsInitial(c, endpoints, seeds, now);
      InitialInv(c, endpoints, seeds, now);
      var coordinator := new EndpointCoordinator.Copy(c);
      return Ok(coordinator);
    }

    method Current() returns (c: Coordinator)
      ensures c == View()
    {
      c := Coordinator(revision, logical, candidates, leases, nextLeaseId, snapshot);
    }

    // --------------------------------------------------------------- queries, leases

    method BeginQuery(l: LogicalId) returns (r: Result<QueryStamp, Error>)
      modifies this
      ensures r.Ok? ==> Endpoint.BeginQuery(old(View()), l) == Ok((View(), r.value))
      ensures r.Err? ==> Endpoint.BeginQuery(old(View()), l) == Err(r.error) && View() == old(View())
    {
      if revision == U64_MAX { return Err(RevisionExhausted); }
      if l !in logical { return Err(UnknownLogical); }
      if logical[l].latestQuery == U64_MAX { return Err(SequenceExhausted); }
      var sequence := logical[l].latestQuery + 1;
      logical := logical[l := logical[l].(latestQuery := sequence)];
      revision := revision + 1;
      return Ok(QueryStamp(l, sequence));
    }

    method Acquire(k: Key) returns (r: Result<Lease, Error>)
      modifies this
      ensures r.Ok? ==> Endpoint.Acquire(old(View()), k) == Ok((View(), r.value))
      ensures r.Err? ==> Endpoint.Acquire(old(View()), k) == Err(r.error) && View() == old(View())
    {
      if revision == U64_MAX { return Err(RevisionExhausted); }
      if nextLeaseId == U64_MAX { return Err(LeaseIdExhausted); }
      if nextLeaseId in leases { return Err(DuplicateLeaseId); }
      if k !in candidates { return Err(CandidateAbsent); }
      if !candidates[k].dialable { return Err(CandidateRetiring); }
      if candidates[k].leases == U32_MAX { return Err(LeaseOverflow); }
      candidates := candidates[k := candidates[k].(leases := candidates[k].leases + 1)];
      var id := nextLeaseId;
      nextLeaseId := id + 1;
      leases := leases[id := k];
      revision := revision + 1;
      return Ok(Lease(id, k));
    }

    // -------------------------------------------------------------------- observations

    method Reschedule(l: LogicalId, streak: U32, next: U64)
      requires l in logical
      modifies this`logical
      ensures logical == old(logical)[l := old(logical)[l].(failureStreak := streak, nextRefresh := next)]
    {
      logical := logical[l := logical[l].(failureStreak := streak, nextRefresh := next)];
    }

    method RetainWithNegativeSchedule(l: LogicalId, now: U64, entropy: U64, ttl: Option<U32>, disposition: Disposition)
      returns (operations: seq<Op>, next: U64)
      requires l in logical
      modifies this`logical
      ensures Retained(old(View()), l, now, entropy, ttl, disposition) == ObservationOutcome(View(), disposition, operations, next)
    {
      var clamped := Clamp(if ttl.None? then DEFAULT_NEGATIVE_TTL_SECS else ttl.value, MIN_TTL_SECS, MAX_NEGATIVE_TTL_SECS);
      next := SatAdd64(now, JitteredTtlMs(clamped, entropy));
      Reschedule(l, 0, next);
      operations := [];
    }

    method RejectObservation(l: LogicalId, now: U64, entropy: U64, disposition: Disposition) returns (operations: seq<Op>, next: U64)
      requires l in logical
      modifies this`logical
      ensures Retried(old(View()), l, now, entropy, disposition) == ObservationOutcome(View(), disposition, operations, next)
    {
      var streak := SatAdd32(logical[l].failureStreak, 1);
      next := SatAdd64(now, RetryDelayMs(streak, entropy));
      Reschedule(l, streak, next);
      operations := [];
    }

    /** Installs an accepted answer: candidates, schedule, snapshot and plan. */
    method Publish(l: LogicalId, ttls: map<Ipv4, U32>, now: U64, entropy: U64) returns (operations: seq<Op>, next: U64, marker: Marker)
      requires Valid() && l in logical && ttls.Values != {}
      modifies this`candidates, this`logical, this`snapshot
      ensures next == SatAdd64(now, JitteredTtlMs(LeastTtl(ttls), entropy))
      ensures candidates == Observed(old(candidates), l, ttls, now)
      ensures logical == old(logical)[l := old(logical)[l].(failureStreak := 0, nextRefresh := next)]
      ensures KeysKnown(logical, candidates.Keys) && KeysKnown(logical, old(candidates).Keys)
      ensures snapshot == NextDial(old(snapshot), DialList(logical, candidates))
      ensures marker == (if old(snapshot).candidates == snapshot.candidates then NoPublication else Publication(old(snapshot).generation, snapshot.generation))
      ensures operations == Plan(logical, old(candidates), candidates, marker)
    {
      var oldCandidates := candidates;
      candidates := ObserveCandidates(candidates, l, ttls, now);
      var least := LeastOf(ttls);
      next := SatAdd64(now, JitteredTtlMs(least, entropy));
      Reschedule(l, 0, next);
      ObservedPublishesNew(old(View()), l, ttls, now, logical, candidates);
      snapshot, marker := NextSnapshot(snapshot, logical, candidates);
      var ordered;
      operations, ordered := CheckedPlan(logical, oldCandidates, candidates, marker);
      assert ordered;
    }

    method ApplyPositive(l: LogicalId, records: seq<AddressRecord>, now: U64, entropy: U64)
      returns (disposition: Disposition, operations: seq<Op>, next: U64)
      requires Valid() && l in logical && records != []
      modifies this
      ensures Endpoint.ApplyPositive(old(View()), l, records, now, entropy) == ObservationOutcome(View(), disposition, operations, next)
    {
      var spec := logical[l].spec;
      var ttls := DedupRecords(records);
      DedupLowest(records, records[0].ip);
      assert records[0].ip in ttls;
      assert ttls[records[0].ip] in ttls.Values;
      AnswerableIff(View(), l, ttls);
      var outside := set ip | ip in ttls && ip !in spec.authority.allowed;
      var rejected := set ip | ip in ttls && !spec.addressPolicy.Permits(ip);
      if outside != {} {
        disposition := RejectedOutsideAuthority(outside);
        operations, next := RejectObservation(l, now, entropy, disposition);
      } else if rejected != {} {
        disposition := RejectedAddressPolicy(rejected);
        operations, next := RejectObservation(l, now, entropy, disposition);
      } else {
        // The guard against a snapshot left without any candidate is never taken.
        ObservedNonempty(View(), l, ttls, now);
        disposition := Applied;
        var marker;
        operations, next, marker := Publish(l, ttls, now, entropy);
        assert View() == ObservedState(old(View()), l, ttls, now, next);
      }
    }

    method ApplyObservation(stamp: QueryStamp, obs: Observation, now: U64, entropy: U64)
      returns (r: Result<(Disposition, seq<Op>, U64), Error>)
      requires Valid()
      modifies this
      ensures Endpoint.ApplyObservation(old(View()), stamp, obs, now, entropy) ==
              if r.Ok? then Ok(ObservationOutcome(View(), r.value.0, r.value.1, r.value.2)) else Err(r.error)
    {
      var l := stamp.logical;
      if l !in logical { return Err(UnknownLogical); }
      if stamp.sequence != logical[l].latestQuery || stamp.sequence <= logical[l].lastApplied {
        return Ok((IgnoredOutOfOrder, [], logical[l].nextRefresh));
      }
      StampedInv(View(), stamp);
      logical := logical[l := logical[l].(lastApplied := stamp.sequence)];
      var disposition, operations, next;
      match obs {
        case Positive(records) =>
          if records == [] {
            disposition := RetainedEmptyPositive;
            operations, next := RetainWithNegativeSchedule(l, now, entropy, None, disposition);
          } else {
            disposition, operations, next := ApplyPositive(l, records, now, entropy);
          }
        case NxDomain(ttl) =>
          disposition := RetainedNegative;
          operations, next := RetainWithNegativeSchedule(l, now, entropy, ttl, disposition);
        case NoData(ttl) =>
          disposition := RetainedNegative;
          operations, next := RetainWithNegativeSchedule(l, now, entropy, ttl, disposition);
        case TransientFailure =>
          disposition := RetainedNegative;
          operations, next := RejectObservation(l, now, entropy, disposition);
      }
      return Ok((disposition, operations, next));
    }

    method PrepareObservation(stamp: QueryStamp, obs: Observation, now: U64, entropy: U64) returns (r: Result<Prepared, Error>)
      requires Valid()
      ensures r == Endpoint.PrepareObservation(View(), stamp, obs, now, entropy)
    {
      var c := Current();
      var projected := new EndpointCoordinator.Copy(c);
      var result := projected.ApplyObservation(stamp, obs, now, entropy);
      if result.Err? { return Err(result.error); }
      if revision == U64_MAX { return Err(RevisionExhausted); }
      ghost var o := ObservationOutcome(projected.View(), result.value.0, result.value.1, result.value.2);
      projected.revision := revision + 1;
      var d := projected.Current();
      ObservationPrepared(c, stamp, obs, now, entropy, o, d);
      return Ok(Prepared(revision, d, result.value.1));
    }

    // ------------------------------------------------- rehydration, release, retirement

    method PrepareRehydration() returns (r: Result<Prepared, Error>)
      requires Valid()
      ensures r == Endpoint.PrepareRehydration(View())
    {
      var c := Current();
      r := ProjectRehydration(c);
    }

    method PrepareRelease(lease: Lease) returns (r: Result<Prepared, Error>)
      requires Valid()
      ensures r == Endpoint.PrepareRelease(View(), lease)
    {
      var c := Current();
      r := ProjectRelease(c, lease);
    }

    method PrepareRetirement() returns (r: Result<Option<Prepared>, Error>)
      requires Valid()
      ensures r == Endpoint.PrepareRetirement(View())
    {
      var kept := map k | k in candidates && (candidates[k].dialable || candidates[k].leases != 0) :: candidates[k];
      assert kept == candidates - Retirable(candidates);
      if kept.Keys == candidates.Keys {
        assert Retirable(candidates) == {};
        return Ok(None);
      }
      var operations, ordered := CheckedPlan(logical, candidates, kept, NoPublication);
      assert ordered;
      if revision == U64_MAX { return Err(RevisionExhausted); }
      var c := Current();
      return Ok(Some(Prepared(revision, c.(revision := revision + 1, candidates := kept), operations)));
    }

    // -------------------------------------------------------------------- commit, abort

    method Commit(p: Prepared) returns (r: Result<seq<Op>, Error>)
      modifies this
      ensures Endpoint.Commit(old(View()), p) == if r.Ok? then Ok(View()) else Err(r.error)
      ensures r.Err? ==> View() == old(View())
      ensures r.Ok? ==> r.value == p.operations
    {
      if revision != p.base { return Err(Stale); }
      var d := p.projected;
      revision, logical, candidates, leases, nextLeaseId, snapshot :=
        d.revision, d.logical, d.candidates, d.leases, d.nextLeaseId, d.snapshot;
      return Ok(p.operations);
    }

    /** Aborting reports staleness and never touches the live state. */
    method Abort(p: Prepared) returns (r: Result<(), Error>)
      ensures r.Ok? <==> Endpoint.Commit(View(), p).Ok?
    {
      if revision != p.base { return Err(Stale); }
      return Ok(());
    }
  }

  /** `prepare_authority_rehydration` on a clone of the state. */
  method ProjectRehydration(c: Coordinator) returns (r: Result<Prepared, Error>)
    requires Inv(c)
    ensures r == Endpoint.PrepareRehydration(c)
  {
    var candidates, revived := ReviveAuthority(c.logical, c.candidates);
    RehydratedDialable(c);
    if revived == {} { return Ok(Prepared(c.revision, c, [])); }
    var view := BuildSnapshot(c.snapshot.generation, c.logical, candidates);
    if view.candidates == c.snapshot.candidates { return Err(RehydrationUnchanged); }
    if c.snapshot.generation == U64_MAX { return Err(GenerationExhausted); }
    var next := c.snapshot.generation + 1;
    var operations, ordered := CheckedPlan(c.logical, c.candidates, candidates, Publication(c.snapshot.generation, next));
    if exists op | op in operations :: IsRemoval(op) { return Err(NonMonotonicRehydration); }
    assert ordered;
    if c.revision == U64_MAX { return Err(RevisionExhausted); }
    return Ok(Prepared(c.revision, c.(revision := c.revision + 1, candidates := candidates, snapshot := DialSnapshot(next, view.candidates)), operations));
  }

  /** `prepare_release` on a clone of the state. */
  method ProjectRelease(c: Coordinator, lease: Lease) returns (r: Result<Prepared, Error>)
    requires Inv(c)
    ensures r == Endpoint.PrepareRelease(c, lease)
  {
    if lease.id !in c.leases { return Err(UnknownLease); }
    if c.leases[lease.id] != lease.key { return Err(LeaseKeyMismatch); }
    if lease.key !in c.candidates { return Err(LeasedCandidateGone); }
    var state := c.candidates[lease.key];
    if state.leases == 0 { return Err(LeaseUnderflow); }
    state := state.(leases := state.leases - 1);
    var candidates := c.candidates[lease.key := state];
    if state.leases == 0 && !state.dialable {
      candidates := candidates - {lease.key};
      assert candidates == c.candidates - {lease.key};
    }
    var operations, ordered := CheckedPlan(c.logical, c.candidates, candidates, NoPublication);
    assert ordered;
    if c.revision == U64_MAX { return Err(RevisionExhausted); }
    return Ok(Prepared(c.revision, c.(revision := c.revision + 1, leases := c.leases - {lease.id}, candidates := candidates), operations));
  }
}
