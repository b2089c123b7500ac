/** Whole-run results about the coordinator and its host. */
module EndpointSafety {
  import opened Prelude
  import opened EndpointPlan
  import opened EndpointRuntime
  import opened Endpoint
  import opened EndpointInvariant
  import opened EndpointRuns

  // ------------------------------------------------------------------------ runs

  ghost predicate Initial(s: System, endpoints: seq<LogicalEndpoint>, seeds: seq<SeedCandidate>, now: U64) {
    Accepts(endpoints, seeds) && IsInitial(s.live, endpoints, seeds, now) &&
    s.host == HostOf(s.live) && s.pending == [] && s.flight == None
  }

  /** States with the event between each two. */
  ghost predicate IsPath(states: seq<System>, events: seq<Event>) {
    |states| == |events| + 1 && forall i :: 0 <= i < |events| ==> StepAt(states, events, i)
  }

  ghost predicate StepAt(states: seq<System>, events: seq<Event>, i: nat)
    requires |states| == |events| + 1 && i < |events|
  {
    Step(states[i], events[i], states[i + 1])
  }

  /** A run from an accepted configuration. */
  ghost predicate IsRun(states: seq<System>, events: seq<Event>, endpoints: seq<LogicalEndpoint>, seeds: seq<SeedCandidate>, now: U64) {
    IsPath(states, events) && Initial(states[0], endpoints, seeds, now)
  }

  lemma RunStart(s: System, endpoints: seq<LogicalEndpoint>, seeds: seq<SeedCandidate>, now: U64)
    requires Initial(s, endpoints, seeds, now)
    ensures SystemInv(s)
  {
    InitialInv(s.live, endpoints, seeds, now);
  }

  lemma PathStep(states: seq<System>, events: seq<Event>, i: nat)
    requires IsPath(states, events) && i < |events|
    ensures SystemInv(states[i]) ==> SystemInv(states[i + 1]) && Evolves(states[i].live, states[i + 1].live)
  {
    assert StepAt(states, events, i);
    if SystemInv(states[i]) { StepKeeps(states[i], events[i], states[i + 1]); }
  }

  lemma {:induction false} PathInvariant(states: seq<System>, events: seq<Event>, i: nat)
    requires IsPath(states, events) && SystemInv(states[0]) && i < |states|
    ensures SystemInv(states[i])
  {
    if i > 0 {
      PathInvariant(states, events, i - 1);
      PathStep(states, events, i - 1);
    }
  }

  ghost predicate EvolvesAt(states: seq<System>, i: nat)
    requires i + 1 < |states|
  {
    Evolves(states[i].live, states[i + 1].live)
  }

  lemma {:induction false} ChainEvolves(states: seq<System>, i: nat, j: nat)
    requires i <= j < |states| && forall k :: 0 <= k < |states| - 1 ==> EvolvesAt(states, k)
    ensures Evolves(states[i].live, states[j].live)
  {
    if i < j {
      ChainEvolves(states, i, j - 1);
      assert EvolvesAt(states, j - 1);
      EvolvesTransitive(states[i].live, states[j - 1].live, states[j].live);
    }
  }

  lemma StepEvolves(states: seq<System>, events: seq<Event>, i: nat)
    requires IsPath(states, events) && SystemInv(states[0]) && i < |events|
    ensures EvolvesAt(states, i)
  {
    PathInvariant(states, events, i);
    PathStep(states, events, i);
  }

  lemma PathEvolves(states: seq<System>, events: seq<Event>, i: nat, j: nat)
    requires IsPath(states, events) && SystemInv(states[0]) && i <= j < |states|
    ensures Evolves(states[i].live, states[j].live)
  {
    forall k | 0 <= k < |states| - 1 ensures EvolvesAt(states, k) { StepEvolves(states, events, k); }
    ChainEvolves(states, i, j);
  }

  lemma RunInvariant(states: seq<System>, events: seq<Event>, endpoints: seq<LogicalEndpoint>, seeds: seq<SeedCandidate>, now: U64, i: nat)
    requires IsRun(states, events, endpoints, seeds, now) && i < |states|
    ensures SystemInv(states[i])
  {
    RunStart(states[0], endpoints, seeds, now);
    PathInvariant(states, events, i);
  }

  /** Between any two points of a run: signed data is constant, counters never
      go back, leases only come from fresh identifiers, and an endpoint that has
      a dialable candidate keeps one. */
  lemma RunEvolves(states: seq<System>, events: seq<Event>, endpoints: seq<LogicalEndpoint>, seeds: seq<SeedCandidate>, now: U64, i: nat, j: nat)
    requires IsRun(states, events, endpoints, seeds, now) && i <= j < |states|
    ensures Evolves(states[i].live, states[j].live)
  {
    RunStart(states[0], endpoints, seeds, now);
    PathEvolves(states, events, i, j);
  }

  /** Whenever no transaction is under way the host holds exactly the access of
      the candidate map, however many transactions failed or went stale before. */
  lemma RunHostExact(states: seq<System>, events: seq<Event>, endpoints: seq<LogicalEndpoint>, seeds: seq<SeedCandidate>, now: U64, i: nat)
    requires IsRun(states, events, endpoints, seeds, now) && i < |states| && states[i].flight.None?
    ensures Wellformed(states[i].live) && states[i].host == HostOf(states[i].live)
  {
    RunInvariant(states, events, endpoints, seeds, now, i);
  }

  /** A released lease identifier never names a lease again. */
  lemma LeaseReleasedOnce(states: seq<System>, events: seq<Event>, endpoints: seq<LogicalEndpoint>, seeds: seq<SeedCandidate>, now: U64, i: nat, j: nat, k: nat, id: U64)
    requires IsRun(states, events, endpoints, seeds, now) && i < j < k < |states|
    requires id in states[i].live.leases && id !in states[j].live.leases
    ensures id !in states[k].live.leases
  {
    RunInvariant(states, events, endpoints, seeds, now, i);
    RunEvolves(states, events, endpoints, seeds, now, i, j);
    RunEvolves(states, events, endpoints, seeds, now, j, k);
    LeaseBound(states[i].live, id);
  }

  lemma LeaseBound(c: Coordinator, id: U64)
    requires Inv(c) && id in c.leases
    ensures id < c.nextLeaseId
  {
  }

  lemma IdUnused(c: Coordinator, d: Coordinator)
    requires Inv(c) && Evolves(c, d)
    ensures d.nextLeaseId !in c.leases
  {
    if d.nextLeaseId in c.leases { LeaseBound(c, d.nextLeaseId); }
  }

  lemma PathIdUnused(states: seq<System>, events: seq<Event>, i: nat, j: nat)
    requires IsPath(states, events) && SystemInv(states[0]) && i <= j < |states|
    ensures states[j].live.nextLeaseId !in states[i].live.leases
  {
    PathInvariant(states, events, i);
    PathEvolves(states, events, i, j);
    IdUnused(states[i].live, states[j].live);
  }

  lemma AcquiredLease(c: Coordinator, k: Key, d: Coordinator, lease: Lease)
    requires Acquire(c, k) == Ok((d, lease))
    ensures lease == Lease(c.nextLeaseId, k)
  {
  }

  /** A newly taken identifier has never been live before. */
  lemma LeaseFresh(states: seq<System>, events: seq<Event>, endpoints: seq<LogicalEndpoint>, seeds: seq<SeedCandidate>, now: U64, i: nat, j: nat, k: Key, lease: Lease, d: Coordinator)
    requires IsRun(states, events, endpoints, seeds, now) && i <= j < |events|
    requires Acquire(states[j].live, k) == Ok((d, lease))
    ensures lease.id !in states[i].live.leases && lease.key == k
  {
    RunStart(states[0], endpoints, seeds, now);
    PathIdUnused(states, events, i, j);
    AcquiredLease(states[j].live, k, d, lease);
  }

  // ------------------------------------------------------------------ single steps

  ghost predicate Ticks(c: Coordinator, d: Coordinator) {
    && d.snapshot.generation == c.snapshot.generation + (if d.snapshot.candidates == c.snapshot.candidates then 0 else 1)
    && (d == c || d.revision == c.revision + 1)
  }

  lemma CallTicks(s: System, e: Event, t: System)
    requires Wellformed(s.live) && Call(s, e, t)
    ensures Ticks(s.live, t.live)
  {
  }

  lemma WorkTicks(s: System, e: Event, t: System)
    requires SystemInv(s) && Work(s, e, t)
    ensures Ticks(s.live, t.live)
  {
    if e.Finish? && s.live.revision == s.flight.value.pending.prepared.base {
      CommitExact(s, t);
    }
  }

  /** The generation rises by one exactly when the dialable list changes, stays
      within the revision, and no live change leaves the revision alone. */
  lemma StepGeneration(s: System, e: Event, t: System)
    requires SystemInv(s) && Step(s, e, t)
    ensures Ticks(s.live, t.live) && t.live.snapshot.generation <= t.live.revision
  {
    StepKeeps(s, e, t);
    InvGeneration(t.live);
    if Work(s, e, t) { WorkTicks(s, e, t); } else { CallTicks(s, e, t); }
  }

  lemma InvGeneration(c: Coordinator)
    requires Inv(c)
    ensures c.snapshot.generation <= c.revision
  {
  }

  /** A commit that is not refused replaces exactly the state it was prepared
      from, and the host then matches the new one. */
  lemma CommitExact(s: System, t: System)
    requires SystemInv(s) && Work(s, Finish, t) && s.live.revision == s.flight.value.pending.prepared.base
    ensures var p := s.flight.value.pending;
            s.live == p.base && t.live == p.prepared.projected && Good(s.live, p.prepared, p.kind, p.released) &&
            t.flight.None? && Wellformed(t.live) && t.host == HostOf(t.live)
  {
    FinishStep(s, t);
  }

  lemma ChangedInvertible(s: System)
    requires SystemInv(s) && s.flight.Some?
    ensures forall op :: op in s.flight.value.changed ==> HostInverse(op).Some?
  {
    var p := s.flight.value.pending;
    HostOpsPlain(p.prepared.operations, p.prepared.projected.snapshot.generation, p.kind);
  }

  /** From any point of a failed transaction compensation runs to the end and
      leaves the host exactly as before the transaction. */
  lemma {:induction false} UnwindCompletes(s: System) returns (trace: seq<System>)
    requires SystemInv(s) && s.flight.Some? && !s.flight.value.forward
    ensures |trace| == |s.flight.value.changed| + 2 && trace[0] == s
    ensures forall i :: 0 <= i < |trace| - 1 ==> Work(trace[i], Unwind, trace[i + 1])
    ensures trace[|trace| - 1] == s.(host := HostOf(s.live), flight := None)
    decreases |s.flight.value.changed|
  {
    var f := s.flight.value;
    ChangedInvertible(s);
    if f.changed == [] {
      trace := [s, s.(flight := None)];
    } else {
      var last := f.changed[|f.changed| - 1];
      var t := s.(host := Apply(s.host, HostInverse(last).value), flight := Some(f.(changed := f.changed[..|f.changed| - 1])));
      assert Work(s, Unwind, t);
      UnwindStep(s, t);
      var rest := UnwindCompletes(t);
      trace := [s] + rest;
    }
  }

  // ------------------------------------------------- access in use during a transaction

  ghost predicate HasAccess(c: Coordinator, host: Host, k: Key)
    requires k.logical in c.logical
  {
    c.logical[k.logical].spec.TupleAt(k.ip) in host.allowed && k.ip in host.bypass
  }

  ghost function ReleasedBy(s: System): Option<Key> {
    if s.flight.Some? then s.flight.value.pending.released else None
  }

  /** Every published candidate and every leased one, except the one whose lease
      is being given up, is allowed and routed. */
  ghost predicate Served(s: System) {
    Wellformed(s.live) &&
    forall k :: InUse(s.live, ReleasedBy(s), k) ==> HasAccess(s.live, s.host, k)
  }

  /** The plan takes nothing away from a candidate in use. */
  ghost predicate Spares(c: Coordinator, ops: seq<Op>, released: Option<Key>)
    requires Wellformed(c)
  {
    forall k :: InUse(c, released, k) ==>
      Deny(c.logical[k.logical].spec.TupleAt(k.ip)) !in ops && RemoveBypass(k.ip) !in ops
  }

  lemma PlanOpsDisjoint(h: Host, g: Host, publish: Marker, ops: seq<Op>)
    requires IsPlan(h, g, publish, ops)
    ensures forall t :: !(Allow(t) in ops && Deny(t) in ops)
    ensures forall ip :: !(AddBypass(ip) in ops && RemoveBypass(ip) in ops)
  {
  }

  lemma FlightDisjoint(s: System, sub: seq<Op>)
    requires SystemInv(s) && s.flight.Some?
    requires forall op :: op in sub ==> op in HostOps(s.flight.value.pending.prepared.operations)
    ensures forall t :: !(Allow(t) in sub && Deny(t) in sub)
    ensures forall ip :: !(AddBypass(ip) in sub && RemoveBypass(ip) in sub)
  {
    var p := s.flight.value.pending;
    var d := p.prepared.projected;
    PlanOpsDisjoint(HostOf(p.base), HostOf(d), MarkerFor(p.base, d), p.prepared.operations);
    HostOpsPlain(p.prepared.operations, d.snapshot.generation, p.kind);
  }

  lemma AtRest(c: Coordinator, k: Key)
    requires Wellformed(c) && k in c.candidates
    ensures HasAccess(c, HostOf(c), k)
  {
    assert k in c.candidates.Keys;
  }

  lemma SparingServes(s: System)
    requires SystemInv(s)
    requires s.flight.Some? ==> Spares(s.live, HostOps(s.flight.value.pending.prepared.operations), ReleasedBy(s))
    ensures Served(s)
  {
    forall k | InUse(s.live, ReleasedBy(s), k) ensures HasAccess(s.live, s.host, k) {
      AtRest(s.live, k);
      if s.flight.Some? {
        var f := s.flight.value;
        FlightDisjoint(s, f.changed);
        ExecAllowed(f.start, f.changed, s.live.logical[k.logical].spec.TupleAt(k.ip));
        ExecBypass(f.start, f.changed, k.ip);
      }
    }
  }

  /** A plan prepared against the live state spares everything in use. */
  lemma FreshSpares(s: System)
    requires SystemInv(s) && s.flight.Some? && s.live.revision == s.flight.value.pending.prepared.base
    ensures Spares(s.live, HostOps(s.flight.value.pending.prepared.operations), ReleasedBy(s))
  {
    var p := s.flight.value.pending;
    var d := p.prepared.projected;
    assert p.base == s.live;
    HostOpsPlain(p.prepared.operations, d.snapshot.generation, p.kind);
    forall k | InUse(s.live, p.released, k)
      ensures var t := s.live.logical[k.logical].spec.TupleAt(k.ip);
              Deny(t) !in p.prepared.operations && RemoveBypass(k.ip) !in p.prepared.operations {
      AtRest(d, k);
    }
  }

  /** An addition-only plan spares everything, even when stale. */
  lemma MonotonicSpares(s: System)
    requires SystemInv(s) && s.flight.Some? && s.flight.value.pending.kind.Monotonic()
    ensures Spares(s.live, HostOps(s.flight.value.pending.prepared.operations), ReleasedBy(s))
  {
    var p := s.flight.value.pending;
    var ops := p.prepared.operations;
    HostOpsPlain(ops, p.prepared.projected.snapshot.generation, p.kind);
    forall op | op in ops ensures !op.Deny? && !op.RemoveBypass? {
      var i :| 0 <= i < |ops| && ops[i] == op;
      assert StepOk(ops, i, p.prepared.projected.snapshot.generation, p.kind);
    }
  }

  /** At every point of every run, forwards and backwards, everything published
      or leased is allowed and routed, provided a transaction that removes access
      was prepared against the live revision. */
  lemma RunServes(states: seq<System>, events: seq<Event>, endpoints: seq<LogicalEndpoint>, seeds: seq<SeedCandidate>, now: U64, i: nat)
    requires IsRun(states, events, endpoints, seeds, now) && i < |states|
    requires states[i].flight.Some? ==>
               var p := states[i].flight.value.pending;
               p.kind.Monotonic() || p.prepared.base == states[i].live.revision
    ensures Served(states[i])
  {
    var s := states[i];
    RunInvariant(states, events, endpoints, seeds, now, i);
    if s.flight.Some? {
      if s.flight.value.pending.kind.Monotonic() { MonotonicSpares(s); } else { FreshSpares(s); }
    }
    SparingServes(s);
  }

  /** With all host operations executed, access in use survives exactly when the
      plan spares it: a stale removal plan is harmless only by not touching it. */
  lemma ServedIff(s: System)
    requires SystemInv(s) && s.flight.Some? && s.flight.value.forward
    requires s.flight.value.next == |HostOps(s.flight.value.pending.prepared.operations)|
    ensures Served(s) <==> Spares(s.live, HostOps(s.flight.value.pending.prepared.operations), ReleasedBy(s))
  {
    var f := s.flight.value;
    var ops := HostOps(f.pending.prepared.operations);
    if Served(s) {
      ChangedSuffices(f.start, ops);
      assert ops[..f.next] == ops;
      FlightDisjoint(s, ops);
      forall k | InUse(s.live, ReleasedBy(s), k)
        ensures Deny(s.live.logical[k.logical].spec.TupleAt(k.ip)) !in ops && RemoveBypass(k.ip) !in ops {
        ExecAllowed(f.start, ops, s.live.logical[k.logical].spec.TupleAt(k.ip));
        ExecBypass(f.start, ops, k.ip);
        assert HasAccess(s.live, s.host, k);
      }
    } else {
      if Spares(s.live, ops, ReleasedBy(s)) { SparingServes(s); }
    }
  }

  lemma RetirementDenies(c: Coordinator, k: Key)
    requires Inv(c) && c.revision < U64_MAX && k in Retirable(c.candidates)
    requires forall x :: x in c.candidates && x.ip == k.ip ==> x == k
    ensures PrepareRetirement(c).Ok? && PrepareRetirement(c).value.Some?
    ensures Deny(c.logical[k.logical].spec.TupleAt(k.ip)) in HostOps(PrepareRetirement(c).value.value.operations)
  {
    var p := PrepareRetirement(c).value.value;
    RetirementGood(c);
    AtRest(c, k);
    assert Deny(c.logical[k.logical].spec.TupleAt(k.ip)) in p.operations;
    NoMarker(p.operations, p.projected.snapshot.generation);
  }

  lemma RehydrationRevives(c: Coordinator, k: Key)
    requires Inv(c) && c.revision < U64_MAX && k in c.candidates
    ensures PrepareRehydration(c).Ok? && Wellformed(PrepareRehydration(c).value.projected)
    ensures InUse(PrepareRehydration(c).value.projected, None, k) && PrepareRehydration(c).value.projected.logical == c.logical
  {
    RehydrationOutcome(c);
    RehydrationPublishesAll(c);
    RehydrationGood(c);
    AuthorityKeysMember(c.logical, k);
    assert k in Dialable(PrepareRehydration(c).value.projected.candidates);
  }

  /** The family of stale removals that do disturb: a retirement prepared before a
      rehydration that revives a candidate whose address no other candidate shares. */
  lemma StaleRetirementDisturbs(c: Coordinator, k: Key)
    requires Inv(c) && c.revision < U64_MAX && k in Retirable(c.candidates)
    requires forall x :: x in c.candidates && x.ip == k.ip ==> x == k
    ensures PrepareRetirement(c).Ok? && PrepareRetirement(c).value.Some?
    ensures PrepareRehydration(c).Ok? && Wellformed(PrepareRehydration(c).value.projected)
    ensures !Spares(PrepareRehydration(c).value.projected, HostOps(PrepareRetirement(c).value.value.operations), None)
  {
    RetirementDenies(c, k);
    RehydrationRevives(c, k);
  }

  lemma NoMarker(ops: seq<Op>, target: U64)
    requires RuntimeOk(ops, target, Retirement)
    ensures HostOps(ops) == ops
  {
    if ops != [] {
      assert StepOk(ops, |ops| - 1, target, Retirement);
    }
  }
}
