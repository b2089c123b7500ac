/** A removal plan that is executed late: a run in which access in use goes away. */
module EndpointStale {
  import opened Prelude
  import opened EndpointPlan
  import opened EndpointRuntime
  import opened Endpoint
  import opened EndpointInvariant
  import opened EndpointObservation
  import opened EndpointRuns
  import opened EndpointSafety
  import Labels = Names

  // --------------------------------------------------------------------------- paths

  ghost predicate Leads(s: System, states: seq<System>, events: seq<Event>, t: System) {
    IsPath(states, events) && states[0] == s && states[|states| - 1] == t
  }

  lemma Stay(s: System)
    ensures Leads(s, [s], [], s)
  {
  }

  /** One more event. */
  lemma Then(s: System, states: seq<System>, events: seq<Event>, t: System, e: Event, u: System)
    requires Leads(s, states, events, t) && Step(t, e, u)
    ensures Leads(s, states + [u], events + [e], u)
  {
    var all, done := states + [u], events + [e];
    forall i | 0 <= i < |done| ensures StepAt(all, done, i) {
      if i < |events| { assert StepAt(states, events, i); }
    }
  }

  lemma {:induction false} Join(s: System, a: seq<System>, ea: seq<Event>, t: System, b: seq<System>, eb: seq<Event>, u: System)
    requires Leads(s, a, ea, t) && Leads(t, b, eb, u)
    ensures Leads(s, a + b[1..], ea + eb, u)
  {
    var all, done := a + b[1..], ea + eb;
    forall i | 0 <= i < |done| ensures StepAt(all, done, i) {
      if i < |ea| { assert StepAt(a, ea, i); } else { assert StepAt(b, eb, i - |ea|); }
    }
  }

  lemma TwoLegs(s: System, e: Event, t: System, b: seq<System>, eb: seq<Event>, u: System) returns (states: seq<System>, events: seq<Event>)
    requires Step(s, e, t) && Leads(t, b, eb, u)
    ensures Leads(s, states, events, u)
  {
    Stay(s);
    Then(s, [s], [], s, e, t);
    Join(s, [s] + [t], [] + [e], t, b, eb, u);
    states, events := ([s] + [t]) + b[1..], ([] + [e]) + eb;
  }

  /** All host operations of the running transaction have been executed. */
  ghost predicate Executed(s: System, t: System) {
    && s.flight.Some? && t.flight.Some? && t.live == s.live && t.pending == s.pending
    && t.flight.value.pending == s.flight.value.pending && t.flight.value.forward
    && t.flight.value.next == |HostOps(s.flight.value.pending.prepared.operations)|
  }

  ghost predicate Forward(s: System) {
    s.flight.Some? && s.flight.value.forward && s.flight.value.next <= |HostOps(s.flight.value.pending.prepared.operations)|
  }

  ghost function Remaining(s: System): nat
    requires Forward(s)
  {
    |HostOps(s.flight.value.pending.prepared.operations)| - s.flight.value.next
  }

  ghost function Advanced(s: System): System
    requires Forward(s) && Remaining(s) > 0
  {
    var f := s.flight.value;
    var op := HostOps(f.pending.prepared.operations)[f.next];
    s.(host := Apply(s.host, op), flight := Some(f.(next := f.next + 1, changed := if Effective(s.host, op) then f.changed + [op] else f.changed)))
  }

  lemma AdvanceWorks(s: System, t: System)
    requires Forward(s) && Remaining(s) > 0 && t == Advanced(s)
    ensures Work(s, HostStep, t) && Forward(t) && Remaining(t) == Remaining(s) - 1
  {
  }

  /** A transaction under way can always execute the rest of its operations. */
  lemma {:induction false} ForwardPath(s: System) returns (states: seq<System>, events: seq<Event>, t: System)
    requires Forward(s)
    ensures Leads(s, states, events, t) && Executed(s, t)
    decreases Remaining(s)
  {
    if Remaining(s) == 0 {
      Stay(s);
      states, events, t := [s], [], s;
    } else {
      var u := Advanced(s);
      AdvanceWorks(s, u);
      var more, rest;
      more, rest, t := ForwardPath(u);
      states, events := TwoLegs(s, HostStep, u, more, rest, t);
    }
  }

  /** The invariant travels along a path. */
  lemma Arrives(s: System, states: seq<System>, events: seq<Event>, t: System)
    requires Leads(s, states, events, t) && SystemInv(s)
    ensures SystemInv(t)
  {
    PathInvariant(states, events, |states| - 1);
  }

  ghost function Launched(s: System, i: nat): System
    requires i < |s.pending|
  {
    s.(pending := Without(s.pending, i), flight := Some(Flight(s.pending[i], s.host, 0, [], true)))
  }

  lemma LaunchSteps(s: System, i: nat, t: System)
    requires Wellformed(s.live) && s.flight.None? && i < |s.pending| && t == Launched(s, i)
    ensures Step(s, Start(i), t) && Forward(t)
  {
  }

  /** Any waiting transition can be started and its host operations executed. */
  lemma LaunchPath(s: System, i: nat) returns (states: seq<System>, events: seq<Event>, t: System)
    requires Wellformed(s.live) && s.flight.None? && i < |s.pending|
    ensures Leads(s, states, events, t) && Executed(Launched(s, i), t)
  {
    var u := Launched(s, i);
    LaunchSteps(s, i, u);
    var more, rest;
    more, rest, t := ForwardPath(u);
    states, events := TwoLegs(s, Start(i), u, more, rest, t);
  }

  ghost function Finished(s: System, d: Coordinator): System { s.(live := d, flight := None) }

  lemma FinishSteps(s: System, p: Prepared, t: System)
    requires s.flight.Some? && s.flight.value.forward && s.flight.value.next == |HostOps(p.operations)| && s.flight.value.pending.prepared == p
    requires p.base == s.live.revision && t == Finished(s, p.projected)
    ensures Step(s, Finish, t)
  {
  }

  /** A transition that waits and is prepared against the live state can be carried out. */
  lemma CommitPath(s: System, i: nat) returns (states: seq<System>, events: seq<Event>, t: System)
    requires Wellformed(s.live) && s.flight.None? && i < |s.pending| && s.pending[i].prepared.base == s.live.revision
    ensures Leads(s, states, events, t)
    ensures t.live == s.pending[i].prepared.projected && t.flight.None? && t.pending == Without(s.pending, i)
  {
    var more, rest, done := LaunchPath(s, i);
    t := Finished(done, s.pending[i].prepared.projected);
    FinishSteps(done, s.pending[i].prepared, t);
    Then(s, more, rest, done, Finish, t);
    states, events := more + [t], rest + [Finish];
  }

  // ------------------------------------------------------------------ the stale removal

  /** A retirement and a rehydration, both prepared against the same state. */
  lemma PreparePath(s: System, p: Prepared, q: Prepared) returns (states: seq<System>, events: seq<Event>, t: System)
    requires Wellformed(s.live) && s.flight.None? && s.pending == []
    requires PrepareRetirement(s.live) == Ok(Some(p)) && PrepareRehydration(s.live) == Ok(q)
    ensures Leads(s, states, events, t) && t == s.(pending := [Pending(s.live, p, Retirement, None), Pending(s.live, q, AuthorityRehydration, None)])
  {
    var a := s.(pending := [Pending(s.live, p, Retirement, None)]);
    t := s.(pending := [Pending(s.live, p, Retirement, None), Pending(s.live, q, AuthorityRehydration, None)]);
    assert Step(s, Retire, a);
    assert Step(a, Rehydrate, t);
    Stay(t);
    var one, two := TwoLegs(a, Rehydrate, t, [t], [], t);
    states, events := TwoLegs(s, Retire, a, one, two, t);
  }

  /** A retirement is prepared, a rehydration revives its candidate and is committed, and
      then the host operations of the retirement are executed. */
  lemma StalePath(s: System, k: Key) returns (states: seq<System>, events: seq<Event>, t: System)
    requires SystemInv(s) && s.flight.None? && s.pending == [] && s.live.revision < U64_MAX
    requires k in Retirable(s.live.candidates) && forall x :: x in s.live.candidates && x.ip == k.ip ==> x == k
    ensures Leads(s, states, events, t) && !Served(t)
  {
    StaleRetirementDisturbs(s.live, k);
    var p, q := PrepareRetirement(s.live).value.value, PrepareRehydration(s.live).value;
    RehydrationBase(s.live, q);
    states, events, t := StaleLegs(s, p, q);
    Arrives(s, states, events, t);
    ServedIff(t);
  }

  lemma RehydrationBase(c: Coordinator, q: Prepared)
    requires Inv(c) && PrepareRehydration(c) == Ok(q)
    ensures q.base == c.revision
  {
    RehydrationOutcome(c);
  }

  lemma StaleLegs(s: System, p: Prepared, q: Prepared) returns (states: seq<System>, events: seq<Event>, t: System)
    requires Wellformed(s.live) && s.flight.None? && s.pending == [] && Wellformed(q.projected)
    requires PrepareRetirement(s.live) == Ok(Some(p)) && PrepareRehydration(s.live) == Ok(q) && q.base == s.live.revision
    ensures Leads(s, states, events, t) && t.live == q.projected && t.flight.Some? && t.flight.value.forward
    ensures t.flight.value.pending == Pending(s.live, p, Retirement, None) && t.flight.value.next == |HostOps(p.operations)|
  {
    var first, begun, b := PreparePath(s, p, q);
    var more, rest, d := CommitPath(b, 1);
    var late, last;
    late, last, t := LaunchPath(d, 0);
    states, events := ThreeLegs(s, first, begun, b, more, rest, d, late, last, t);
  }

  lemma ThreeLegs(s: System, a: seq<System>, ea: seq<Event>, t: System, b: seq<System>, eb: seq<Event>, u: System, c: seq<System>, ec: seq<Event>, v: System)
    returns (states: seq<System>, events: seq<Event>)
    requires Leads(s, a, ea, t) && Leads(t, b, eb, u) && Leads(u, c, ec, v)
    ensures Leads(s, states, events, v)
  {
    Join(s, a, ea, t, b, eb, u);
    Join(s, a + b[1..], ea + eb, u, c, ec, v);
    states, events := (a + b[1..]) + c[1..], (ea + eb) + ec;
  }

  // ------------------------------------------------------------------- a concrete run

  const KEPT: Ipv4 := 0x0808_0808
  const DROPPED: Ipv4 := 0x0808_0809

  function TwoAddresses(): LogicalEndpoint {
    LogicalEndpoint(1, [97], 443, Tcp, 0, Authority(1, {KEPT, DROPPED}), AddressPolicy(false))
  }

  const TWO_SEEDS: seq<SeedCandidate> := [SeedCandidate(1, KEPT), SeedCandidate(1, DROPPED)]

  ghost function FirstState(): Coordinator {
    var logical := map[1 := LogicalState(TwoAddresses(), 0, 0, 0, 5_000)];
    var candidates := map[Key(1, KEPT) := CandidateState(None, true, 0), Key(1, DROPPED) := CandidateState(None, true, 0)];
    Coordinator(1, logical, candidates, map[], 1, DialSnapshot(1, DialList(logical, candidates)))
  }

  lemma EndpointValid()
    ensures ValidEndpoint(TwoAddresses())
  {
    Labels.SplitJoin([[97]]);
    assert Labels.Join([[97]]) == [97];
  }

  lemma FirstAccepted()
    ensures Accepts([TwoAddresses()], TWO_SEEDS)
  {
    EndpointValid();
    assert [TwoAddresses()][0].id == 1;
  }

  lemma FirstInitial()
    ensures IsInitial(FirstState(), [TwoAddresses()], TWO_SEEDS, 0)
  {
    var c := FirstState();
    assert [TwoAddresses()][0].id == 1;
    forall k ensures k in c.candidates <==> HasSeed(TWO_SEEDS, k) {
      assert TWO_SEEDS[0] == SeedCandidate(1, KEPT) && TWO_SEEDS[1] == SeedCandidate(1, DROPPED);
    }
  }

  ghost function Queried(): Coordinator {
    BeginQuery(FirstState(), 1).value.0
  }

  const FIRST_STAMP: QueryStamp := QueryStamp(1, 1)
  const ONE_ADDRESS: Observation := Positive([AddressRecord(KEPT, 60)])

  lemma QueriedState()
    ensures Inv(Queried()) && Queried().logical.Keys == {1} && Queried().revision == 2 && Queried().leases == map[]
    ensures BeginQuery(FirstState(), 1) == Ok((Queried(), FIRST_STAMP))
    ensures Key(1, DROPPED) in Queried().candidates && Acceptable(Queried(), FIRST_STAMP, ONE_ADDRESS)
  {
    FirstAccepted();
    FirstInitial();
    InitialInv(FirstState(), [TwoAddresses()], TWO_SEEDS, 0);
    BeginQueryKeeps(FirstState(), 1);
  }

  lemma Unleased(d: Coordinator, k: Key)
    requires Inv(d) && d.leases == map[] && k in d.candidates && k !in Dialable(d.candidates)
    ensures k in Retirable(d.candidates)
  {
    assert LeaseIds(d.leases, k) == {};
  }

  lemma OnlyOwner(d: Coordinator)
    requires Inv(d) && d.logical.Keys == {1}
    ensures forall x :: x in d.candidates && x.ip == DROPPED ==> x == Key(1, DROPPED)
  {
    assert forall x :: x in d.candidates ==> Authorized(d.logical, x);
  }

  lemma AnswerEffect(c: Coordinator, p: Prepared, o: ObservationOutcome)
    requires Inv(c) && c.revision < U64_MAX && Key(1, DROPPED) in c.candidates && Acceptable(c, FIRST_STAMP, ONE_ADDRESS)
    requires ApplyObservation(c, FIRST_STAMP, ONE_ADDRESS, 0, 0) == Ok(o) && p == Prepared(c.revision, o.state.(revision := c.revision + 1), o.operations)
    ensures p.projected.leases == c.leases
    ensures Key(1, DROPPED) in p.projected.candidates && Key(1, DROPPED) !in Dialable(p.projected.candidates)
  {
    AcceptableApplies(c, FIRST_STAMP, ONE_ADDRESS, 0, 0, o);
  }

  lemma AnswerKeeps(c: Coordinator, p: Prepared)
    requires Inv(c) && PrepareObservation(c, FIRST_STAMP, ONE_ADDRESS, 0, 0) == Ok(p)
    ensures Inv(p.projected) && p.projected.logical.Keys == c.logical.Keys
  {
    ObservationGood(c, FIRST_STAMP, ONE_ADDRESS, 0, 0, p);
  }

  /** An answer that names one address leaves the other one to be retired. */
  lemma AnswerRetires(c: Coordinator, p: Prepared)
    requires Inv(c) && c.logical.Keys == {1} && c.leases == map[] && c.revision < U64_MAX && Key(1, DROPPED) in c.candidates
    requires Acceptable(c, FIRST_STAMP, ONE_ADDRESS) && PrepareObservation(c, FIRST_STAMP, ONE_ADDRESS, 0, 0) == Ok(p)
    ensures p.base == c.revision && p.projected.revision == c.revision + 1
    ensures Key(1, DROPPED) in Retirable(p.projected.candidates)
    ensures forall x :: x in p.projected.candidates && x.ip == DROPPED ==> x == Key(1, DROPPED)
  {
    AnswerEffect(c, p, ApplyObservation(c, FIRST_STAMP, ONE_ADDRESS, 0, 0).value);
    AnswerKeeps(c, p);
    Unleased(p.projected, Key(1, DROPPED));
    OnlyOwner(p.projected);
  }

  /** From the accepted configuration to the state with a candidate to retire. */
  lemma AnswerPath(s: System, p: Prepared) returns (states: seq<System>, events: seq<Event>, t: System)
    requires s == System(FirstState(), HostOf(FirstState()), [], None)
    requires BeginQuery(FirstState(), 1) == Ok((Queried(), FIRST_STAMP)) && Wellformed(Queried())
    requires PrepareObservation(Queried(), FIRST_STAMP, ONE_ADDRESS, 0, 0) == Ok(p) && p.base == Queried().revision
    ensures Leads(s, states, events, t) && t.live == p.projected && t.flight.None? && t.pending == []
  {
    var a := s.(live := Queried());
    var b := a.(pending := [Pending(Queried(), p, ObservationStage, None)]);
    assert Step(s, Query(1), a);
    assert Step(a, Observe(FIRST_STAMP, ONE_ADDRESS, 0, 0), b);
    var more, rest;
    more, rest, t := CommitPath(b, 0);
    var one, two := TwoLegs(a, Observe(FIRST_STAMP, ONE_ADDRESS, 0, 0), b, more, rest, t);
    states, events := TwoLegs(s, Query(1), a, one, two, t);
  }

  /** A run of the coordinator in which a published candidate loses its access: a query, an
      answer that leaves one address out, a retirement of that address prepared, a
      rehydration committed, and the retirement executed late. */
  lemma StaleRun() returns (states: seq<System>, events: seq<Event>, i: nat)
    ensures IsRun(states, events, [TwoAddresses()], TWO_SEEDS, 0) && i < |states| && !Served(states[i])
  {
    FirstAccepted();
    FirstInitial();
    QueriedState();
    var s := System(FirstState(), HostOf(FirstState()), [], None);
    ObservationSucceeds(Queried(), FIRST_STAMP, ONE_ADDRESS, 0, 0);
    var p := PrepareObservation(Queried(), FIRST_STAMP, ONE_ADDRESS, 0, 0).value;
    AnswerRetires(Queried(), p);
    var first, begun, t := AnswerPath(s, p);
    RunStart(s, [TwoAddresses()], TWO_SEEDS, 0);
    Arrives(s, first, begun, t);
    var late, last, u := StalePath(t, Key(1, DROPPED));
    Join(s, first, begun, t, late, last, u);
    states, events := first + late[1..], begun + last;
    i := |states| - 1;
  }
}
