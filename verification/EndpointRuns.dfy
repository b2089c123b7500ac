/** Runs of the coordinator together with the host it steers: queries, leases,
    prepared transitions that may be committed late or never, host operations one
    at a time, failures at any of them, and compensation. */
module EndpointRuns {
  import opened Prelude
  import opened EndpointPlan
  import opened EndpointRuntime
  import opened Endpoint
  import opened EndpointInvariant

  /** A prepared transition and the live state it was prepared against. */
  datatype Pending = Pending(base: Coordinator, prepared: Prepared, kind: Kind, released: Option<Key>)

  /** A transaction on the host: the operations that changed it so far, and
      whether it is still moving forward or being compensated. */
  datatype Flight = Flight(pending: Pending, start: Host, next: nat, changed: seq<Op>, forward: bool)

  datatype System = System(live: Coordinator, host: Host, pending: seq<Pending>, flight: Option<Flight>)

  datatype Event =
    | Query(logical: LogicalId)
    | Take(key: Key)
    | Observe(stamp: QueryStamp, observation: Observation, now: U64, entropy: U64)
    | Rehydrate
    | Release(lease: Lease)
    | Retire
    | Drop(index: nat)
    | Start(index: nat)
    | HostStep
    | GiveUp
    | Unwind
    | Finish

  /** The host part of a plan: the final publish marker is the model commit. */
  function HostOps(ops: seq<Op>): seq<Op> {
    if ops != [] && ops[|ops| - 1].Publish? then ops[..|ops| - 1] else ops
  }

  function Without(pending: seq<Pending>, i: nat): seq<Pending>
    requires i < |pending|
  {
    pending[..i] + pending[i + 1..]
  }

  function Enqueue(s: System, p: Result<Prepared, Error>, kind: Kind, released: Option<Key>): System {
    if p.Ok? then s.(pending := s.pending + [Pending(s.live, p.value, kind, released)]) else s
  }

  /** Calls on the coordinator alone; none is possible while a transaction holds it. */
  ghost predicate Call(s: System, e: Event, t: System)
    requires Wellformed(s.live)
  {
    s.flight.None? &&
    match e
    case Query(l) => t == if BeginQuery(s.live, l).Ok? then s.(live := BeginQuery(s.live, l).value.0) else s
    case Take(k) => t == if Acquire(s.live, k).Ok? then s.(live := Acquire(s.live, k).value.0) else s
    case Observe(stamp, obs, now, entropy) =>
      t == Enqueue(s, PrepareObservation(s.live, stamp, obs, now, entropy), ObservationStage, None)
    case Rehydrate => t == Enqueue(s, PrepareRehydration(s.live), AuthorityRehydration, None)
    case Release(lease) => t == Enqueue(s, PrepareRelease(s.live, lease), LeaseRelease, Some(lease.key))
    case Retire =>
      (match PrepareRetirement(s.live)
       case Ok(Some(p)) => t == Enqueue(s, Ok(p), Retirement, None)
       case _ => t == s)
    case Drop(i) => i < |s.pending| && t == s.(pending := Without(s.pending, i))
    case Start(i) =>
      i < |s.pending| &&
      t == s.(pending := Without(s.pending, i), flight := Some(Flight(s.pending[i], s.host, 0, [], true)))
    case _ => false
  }

  /** One step of a transaction. `GiveUp` is a failed host operation or an expired
      authority; `Finish` is the model commit, which a changed revision refuses. */
  ghost predicate Work(s: System, e: Event, t: System) {
    s.flight.Some? &&
    var f := s.flight.value;
    var ops := HostOps(f.pending.prepared.operations);
    match e
    case HostStep =>
      f.forward && f.next < |ops| &&
      t == s.(host := Apply(s.host, ops[f.next]),
              flight := Some(f.(next := f.next + 1,
                                changed := if Effective(s.host, ops[f.next]) then f.changed + [ops[f.next]] else f.changed)))
    case GiveUp => f.forward && t == s.(flight := Some(f.(forward := false)))
    case Unwind =>
      !f.forward &&
      if f.changed == [] then t == s.(flight := None)
      else
        var last := f.changed[|f.changed| - 1];
        HostInverse(last).Some? &&
        t == s.(host := Apply(s.host, HostInverse(last).value), flight := Some(f.(changed := f.changed[..|f.changed| - 1])))
    case Finish =>
      f.forward && f.next == |ops| &&
      (match Commit(s.live, f.pending.prepared)
       case Ok(d) => t == s.(live := d, flight := None)
       case Err(_) => t == s.(flight := Some(f.(forward := false))))
    case _ => false
  }

  ghost predicate Step(s: System, e: Event, t: System) {
    Work(s, e, t) || (Wellformed(s.live) && Call(s, e, t))
  }

  // ------------------------------------------------------------------ invariant

  /** A pending transition is good against its base, and its base is the live
      state whenever the revisions agree. */
  ghost predicate PendingOk(live: Coordinator, p: Pending) {
    && Inv(p.base) && Good(p.base, p.prepared, p.kind, p.released)
    && SameSpecs(p.base.logical, live.logical)
    && p.base.revision <= live.revision
    && (p.base.revision == live.revision ==> p.base == live)
  }

  ghost predicate FlightOk(live: Coordinator, host: Host, f: Flight)
    requires Wellformed(live)
  {
    var ops := HostOps(f.pending.prepared.operations);
    && PendingOk(live, f.pending)
    && f.start == HostOf(live)
    && f.next <= |ops|
    && AllEffective(f.start, f.changed)
    && (forall op :: op in f.changed ==> op in ops)
    && host == Exec(f.start, f.changed)
    && (f.forward ==> f.changed == Changed(f.start, ops[..f.next]))
  }

  ghost predicate SystemInv(s: System) {
    && Inv(s.live)
    && (forall i :: 0 <= i < |s.pending| ==> PendingOk(s.live, s.pending[i]))
    && match s.flight
       case None => s.host == HostOf(s.live)
       case Some(f) => FlightOk(s.live, s.host, f)
  }

  /** What no run can undo: reflexive and transitive on live states. */
  ghost predicate Evolves(c: Coordinator, d: Coordinator) {
    && SameSpecs(c.logical, d.logical)
    && c.revision <= d.revision && c.snapshot.generation <= d.snapshot.generation
    && c.nextLeaseId <= d.nextLeaseId
    && (forall id :: id in d.leases ==> (id in c.leases && d.leases[id] == c.leases[id]) || c.nextLeaseId <= id)
    && KeepsDialable(c, d)
  }

  lemma EvolvesTransitive(a: Coordinator, b: Coordinator, c: Coordinator)
    requires Evolves(a, b) && Evolves(b, c)
    ensures Evolves(a, c)
  {
    forall id | id in c.leases ensures (id in a.leases && c.leases[id] == a.leases[id]) || a.nextLeaseId <= id {
      assert id in b.leases || b.nextLeaseId <= id;
    }
  }

  // ------------------------------------------------------- coordinator-only calls

  lemma PendingFrame(live: Coordinator, live': Coordinator, p: Pending)
    requires PendingOk(live, p) && SameSpecs(live.logical, live'.logical)
    requires live' == live || live.revision < live'.revision
    ensures PendingOk(live', p)
  {
  }

  lemma AllPendingFrame(s: System, live': Coordinator)
    requires forall i :: 0 <= i < |s.pending| ==> PendingOk(s.live, s.pending[i])
    requires SameSpecs(s.live.logical, live'.logical)
    requires live' == s.live || s.live.revision < live'.revision
    ensures forall i :: 0 <= i < |s.pending| ==> PendingOk(live', s.pending[i])
  {
    forall i | 0 <= i < |s.pending| ensures PendingOk(live', s.pending[i]) {
      PendingFrame(s.live, live', s.pending[i]);
    }
  }

  lemma QueryStep(s: System, e: Event, t: System)
    requires SystemInv(s) && e.Query? && Call(s, e, t)
    ensures SystemInv(t) && Evolves(s.live, t.live)
  {
    if BeginQuery(s.live, e.logical).Ok? {
      BeginQueryKeeps(s.live, e.logical);
      AllPendingFrame(s, t.live);
      assert forall l :: HasDialable(s.live, l) ==> HasDialable(t.live, l);
    }
  }

  lemma TakeStep(s: System, e: Event, t: System)
    requires SystemInv(s) && e.Take? && Call(s, e, t)
    ensures SystemInv(t) && Evolves(s.live, t.live)
  {
    if Acquire(s.live, e.key).Ok? {
      AcquireKeeps(s.live, e.key);
      AllPendingFrame(s, t.live);
    }
  }

  lemma Enqueued(s: System, p: Pending, t: System)
    requires SystemInv(s) && t == s.(pending := s.pending + [p]) && p.base == s.live
    requires Good(s.live, p.prepared, p.kind, p.released)
    ensures SystemInv(t) && Evolves(s.live, t.live)
  {
    assert PendingOk(s.live, p);
    forall i | 0 <= i < |t.pending| ensures PendingOk(t.live, t.pending[i]) {
      assert i < |s.pending| ==> t.pending[i] == s.pending[i];
    }
  }

  lemma ObserveStep(s: System, e: Event, t: System)
    requires SystemInv(s) && e.Observe? && Call(s, e, t)
    ensures SystemInv(t) && Evolves(s.live, t.live)
  {
    var r := PrepareObservation(s.live, e.stamp, e.observation, e.now, e.entropy);
    if r.Ok? {
      ObservationGood(s.live, e.stamp, e.observation, e.now, e.entropy, r.value);
      Enqueued(s, Pending(s.live, r.value, ObservationStage, None), t);
    }
  }

  lemma RehydrateStep(s: System, e: Event, t: System)
    requires SystemInv(s) && e.Rehydrate? && Call(s, e, t)
    ensures SystemInv(t) && Evolves(s.live, t.live)
  {
    var r := PrepareRehydration(s.live);
    if r.Ok? {
      RehydrationGood(s.live);
      Enqueued(s, Pending(s.live, r.value, AuthorityRehydration, None), t);
    }
  }

  lemma ReleaseStep(s: System, e: Event, t: System)
    requires SystemInv(s) && e.Release? && Call(s, e, t)
    ensures SystemInv(t) && Evolves(s.live, t.live)
  {
    var r := PrepareRelease(s.live, e.lease);
    if r.Ok? {
      ReleaseGood(s.live, e.lease);
      Enqueued(s, Pending(s.live, r.value, LeaseRelease, Some(e.lease.key)), t);
    }
  }

  lemma RetireStep(s: System, e: Event, t: System)
    requires SystemInv(s) && e.Retire? && Call(s, e, t)
    ensures SystemInv(t) && Evolves(s.live, t.live)
  {
    var r := PrepareRetirement(s.live);
    if r.Ok? && r.value.Some? {
      RetirementGood(s.live);
      Enqueued(s, Pending(s.live, r.value.value, Retirement, None), t);
    }
  }

  lemma WithoutAt(pending: seq<Pending>, k: nat, i: nat)
    requires k < |pending| && i < |Without(pending, k)|
    ensures Without(pending, k)[i] in pending
  {
    assert Without(pending, k)[i] == if i < k then pending[i] else pending[i + 1];
  }

  lemma WithoutOk(live: Coordinator, pending: seq<Pending>, k: nat)
    requires k < |pending| && forall i :: 0 <= i < |pending| ==> PendingOk(live, pending[i])
    ensures forall i :: 0 <= i < |Without(pending, k)| ==> PendingOk(live, Without(pending, k)[i])
  {
    var rest := Without(pending, k);
    forall i | 0 <= i < |rest| ensures PendingOk(live, rest[i]) {
      WithoutAt(pending, k, i);
    }
  }

  lemma DropStep(s: System, e: Event, t: System)
    requires SystemInv(s) && e.Drop? && Call(s, e, t)
    ensures SystemInv(t) && Evolves(s.live, t.live)
  {
    WithoutOk(s.live, s.pending, e.index);
  }

  lemma FlightStarts(live: Coordinator, p: Pending, f: Flight)
    requires Inv(live) && PendingOk(live, p) && f == Flight(p, HostOf(live), 0, [], true)
    ensures FlightOk(live, HostOf(live), f)
  {
    assert HostOps(p.prepared.operations)[..0] == [];
  }

  lemma StartStep(s: System, e: Event, t: System)
    requires SystemInv(s) && e.Start? && Call(s, e, t)
    ensures SystemInv(t) && Evolves(s.live, t.live)
  {
    WithoutOk(s.live, s.pending, e.index);
    FlightStarts(s.live, s.pending[e.index], t.flight.value);
  }

  lemma CallStep(s: System, e: Event, t: System)
    requires SystemInv(s) && Call(s, e, t)
    ensures SystemInv(t) && Evolves(s.live, t.live)
  {
    match e
    case Query(_) => QueryStep(s, e, t);
    case Take(_) => TakeStep(s, e, t);
    case Observe(_, _, _, _) => ObserveStep(s, e, t);
    case Rehydrate => RehydrateStep(s, e, t);
    case Release(_) => ReleaseStep(s, e, t);
    case Retire => RetireStep(s, e, t);
    case Drop(_) => DropStep(s, e, t);
    case Start(_) => StartStep(s, e, t);
    case _ =>
  }

  // ----------------------------------------------------------------- transactions

  lemma HostOpsPlain(ops: seq<Op>, target: U64, kind: Kind)
    requires RuntimeOk(ops, target, kind)
    ensures forall op :: op in HostOps(ops) ==> op in ops && !op.Publish?
  {
    forall op | op in HostOps(ops) ensures op in ops && !op.Publish? {
      var i :| 0 <= i < |HostOps(ops)| && HostOps(ops)[i] == op;
      assert StepOk(ops, i, target, kind);
    }
  }

  lemma HostOpsExec(h: Host, ops: seq<Op>)
    ensures Exec(h, HostOps(ops)) == Exec(h, ops)
  {
  }

  function Extended(host: Host, changed: seq<Op>, op: Op): seq<Op> {
    if Effective(host, op) then changed + [op] else changed
  }

  lemma ForwardExtends(h: Host, ops: seq<Op>, n: nat, changed: seq<Op>, host: Host)
    requires n < |ops| && changed == Changed(h, ops[..n]) && host == Exec(h, changed)
    ensures var next := Extended(host, changed, ops[n]);
            next == Changed(h, ops[..n + 1]) && Apply(host, ops[n]) == Exec(h, next) && AllEffective(h, next)
  {
    assert ops[..n + 1][..n] == ops[..n];
    ChangedSuffices(h, ops[..n]);
    ChangedSuffices(h, ops[..n + 1]);
  }

  lemma HostStepStep(s: System, t: System)
    requires SystemInv(s) && Work(s, HostStep, t)
    ensures SystemInv(t) && t.live == s.live
  {
    var f := s.flight.value;
    var ops := HostOps(f.pending.prepared.operations);
    ForwardExtends(f.start, ops, f.next, f.changed, s.host);
    assert t.flight.value.changed == Extended(s.host, f.changed, ops[f.next]);
  }

  lemma InverseUndoes(h: Host, op: Op)
    requires Effective(h, op) && HostInverse(op).Some?
    ensures Apply(Apply(h, op), HostInverse(op).value) == h
  {
  }

  lemma EffectivePrefix(h: Host, ops: seq<Op>)
    requires ops != [] && AllEffective(h, ops)
    ensures AllEffective(h, ops[..|ops| - 1]) && Effective(Exec(h, ops[..|ops| - 1]), ops[|ops| - 1])
  {
    var init := ops[..|ops| - 1];
    forall i | 0 <= i < |init| ensures Effective(Exec(h, init[..i]), init[i]) {
      assert init[..i] == ops[..i];
      assert init[i] == ops[i];
    }
  }

  lemma UndoLast(h: Host, ops: seq<Op>)
    requires ops != [] && AllEffective(h, ops) && HostInverse(ops[|ops| - 1]).Some?
    ensures AllEffective(h, ops[..|ops| - 1])
    ensures Apply(Exec(h, ops), HostInverse(ops[|ops| - 1]).value) == Exec(h, ops[..|ops| - 1])
  {
    EffectivePrefix(h, ops);
    InverseUndoes(Exec(h, ops[..|ops| - 1]), ops[|ops| - 1]);
  }

  lemma UnwindStep(s: System, t: System)
    requires SystemInv(s) && Work(s, Unwind, t)
    ensures SystemInv(t) && t.live == s.live
  {
    var f := s.flight.value;
    if f.changed != [] {
      UndoLast(f.start, f.changed);
    }
  }

  /** A good transition moves the live state along. */
  lemma GoodEvolves(c: Coordinator, p: Prepared, kind: Kind, released: Option<Key>)
    requires Inv(c) && Good(c, p, kind, released)
    ensures Evolves(c, p.projected) && Inv(p.projected)
    ensures p.projected == c || c.revision < p.projected.revision
    ensures Exec(HostOf(c), p.operations) == HostOf(p.projected)
  {
    PlanReaches(HostOf(c), HostOf(p.projected), MarkerFor(c, p.projected), p.operations);
  }

  lemma FinishStep(s: System, t: System)
    requires SystemInv(s) && Work(s, Finish, t)
    ensures SystemInv(t) && Evolves(s.live, t.live)
  {
    var f := s.flight.value;
    var p := f.pending;
    var ops := HostOps(p.prepared.operations);
    if s.live.revision == p.prepared.base {
      assert p.base == s.live;
      GoodEvolves(s.live, p.prepared, p.kind, p.released);
      ChangedSuffices(f.start, ops);
      assert ops[..f.next] == ops;
      HostOpsExec(f.start, p.prepared.operations);
      AllPendingFrame(s, t.live);
    }
  }

  lemma WorkStep(s: System, e: Event, t: System)
    requires SystemInv(s) && Work(s, e, t)
    ensures SystemInv(t) && Evolves(s.live, t.live)
  {
    match e
    case HostStep => HostStepStep(s, t);
    case GiveUp =>
    case Unwind => UnwindStep(s, t);
    case Finish => FinishStep(s, t);
    case _ =>
  }

  lemma StepKeeps(s: System, e: Event, t: System)
    requires SystemInv(s) && Step(s, e, t)
    ensures SystemInv(t) && Evolves(s.live, t.live)
  {
    if Work(s, e, t) { WorkStep(s, e, t); } else { CallStep(s, e, t); }
  }
}
