/** All-resource crash recovery: inspect everything, decide, then remove one
    journaled resource at a time, acknowledging each on disk. */
module HostRecovery {
  import opened Prelude
  import opened Ordered
  import opened HostJournal

  datatype Owner = OwnerActive | Ambiguous | Stale

  datatype ObservationKind = ExactOwnedPresent | AlreadyGone | Foreign

  datatype Observation = Observation(id: U32, kind: ObservationKind)

  datatype Refusal = AmbiguousOwner | JournalAlreadyInConflict | ResourceConflict(ids: set<U32>)

  datatype RecoveryAction = RemoveExactOwned | MarkAlreadyAbsent

  datatype RecoveryStep = RecoveryStep(id: U32, action: RecoveryAction, resource: Resource)

  datatype Decision = LeaveActive | Refuse(refusal: Refusal) | Execute(generation: U64, steps: seq<RecoveryStep>)

  datatype DecisionError = InvalidJournal | UnknownObservation | ObservationForRemoved | DuplicateObservation | MissingObservations

  // ---------------------------------------------------------------------- deciding

  /** Every observation names a live record, no record is named twice, and every
      live record is named. */
  ghost predicate Complete(j: Journal, obs: seq<Observation>) {
    NamesLive(j, obs, |obs|) && forall id :: LiveId(j, id) ==> Named(obs, id)
  }

  ghost predicate NamesLive(j: Journal, obs: seq<Observation>, n: nat)
    requires n <= |obs|
  {
    (forall k :: 0 <= k < n ==> LiveId(j, obs[k].id)) &&
    (forall a, b :: 0 <= a < b < n ==> obs[a].id != obs[b].id)
  }

  predicate LiveId(j: Journal, id: nat) {
    1 <= id <= |j.operations| && !j.operations[id - 1].state.Removed?
  }

  ghost predicate Named(obs: seq<Observation>, id: nat) {
    exists k :: 0 <= k < |obs| && obs[k].id == id
  }

  function StepRank(s: RecoveryStep): int {
    s.resource.RemovalRank() * 0x1_0000_0000 + s.id
  }

  function ActionFor(kind: ObservationKind): RecoveryAction {
    if kind.ExactOwnedPresent? then RemoveExactOwned else MarkAlreadyAbsent
  }

  /** One step per live record, with the action its observation calls for, in
      removal order. */
  ghost predicate IsPlan(j: Journal, inspected: map<U32, ObservationKind>, steps: seq<RecoveryStep>) {
    && StrictlySorted(steps, StepRank)
    && (forall s :: s in steps <==> StepFor(j, inspected, s))
  }

  ghost predicate StepFor(j: Journal, inspected: map<U32, ObservationKind>, s: RecoveryStep) {
    LiveId(j, s.id) && s.id in inspected &&
    s.resource == j.operations[s.id - 1].resource && s.action == ActionFor(inspected[s.id])
  }

  /** The observations as a map, for complete observations. */
  ghost predicate Inspects(obs: seq<Observation>, n: nat, inspected: map<U32, ObservationKind>)
    requires n <= |obs|
  {
    (forall k :: 0 <= k < n ==> obs[k].id in inspected && inspected[obs[k].id] == obs[k].kind) &&
    (forall id :: id in inspected ==> Named(obs[..n], id))
  }

  lemma NamedNext(obs: seq<Observation>, k: nat)
    requires k < |obs|
    ensures forall id :: Named(obs[..k + 1], id) <==> Named(obs[..k], id) || id == obs[k].id
  {
    var a, b := obs[..k], obs[..k + 1];
    assert b == a + [obs[k]];
    forall id ensures Named(b, id) <==> Named(a, id) || id == obs[k].id {
      if Named(a, id) {
        var x :| 0 <= x < |a| && a[x].id == id;
        assert b[x].id == id;
      }
      if id == obs[k].id {
        assert b[k].id == id;
      }
    }
  }

  lemma InspectsNext(obs: seq<Observation>, k: nat, inspected: map<U32, ObservationKind>)
    requires k < |obs| && Inspects(obs, k, inspected) && obs[k].id !in inspected
    ensures Inspects(obs, k + 1, inspected[obs[k].id := obs[k].kind])
    ensures forall a :: 0 <= a < k ==> obs[a].id != obs[k].id
  {
    NamedNext(obs, k);
  }

  method NameOnce(j: Journal, obs: seq<Observation>) returns (r: Result<map<U32, ObservationKind>, DecisionError>)
    ensures r.Ok? <==> NamesLive(j, obs, |obs|)
    ensures r.Ok? ==> Inspects(obs, |obs|, r.value)
    ensures r.Err? ==> r.error != InvalidJournal
  {
    var inspected: map<U32, ObservationKind> := map[];
    for k := 0 to |obs|
      invariant Inspects(obs, k, inspected) && NamesLive(j, obs, k)
    {
      var id := obs[k].id;
      if id < 1 || id > |j.operations| { return Err(UnknownObservation); }
      if j.operations[id - 1].state.Removed? { return Err(ObservationForRemoved); }
      if id in inspected {
        assert Named(obs[..k], id);
        return Err(DuplicateObservation);
      }
      InspectsNext(obs, k, inspected);
      inspected := inspected[id := obs[k].kind];
    }
    assert obs[..|obs|] == obs;
    return Ok(inspected);
  }

  method AllNamed(j: Journal, obs: seq<Observation>, inspected: map<U32, ObservationKind>) returns (ok: bool)
    requires Inspects(obs, |obs|, inspected) && |j.operations| <= MAX_OPERATIONS
    ensures ok <==> forall id :: LiveId(j, id) ==> Named(obs, id)
  {
    for i := 0 to |j.operations|
      invariant forall id: nat :: LiveId(j, id) && id <= i ==> Named(obs, id)
    {
      if LiveId(j, i + 1) && i + 1 !in inspected {
        assert !Named(obs, i + 1);
        return false;
      }
    }
    return true;
  }

  method ReadObservations(j: Journal, obs: seq<Observation>) returns (r: Result<map<U32, ObservationKind>, DecisionError>)
    requires ValidJournal(j)
    ensures r.Ok? <==> Complete(j, obs)
    ensures r.Ok? ==> Inspects(obs, |obs|, r.value)
    ensures r.Err? ==> r.error != InvalidJournal
  {
    r := NameOnce(j, obs);
    if r.Ok? {
      var all := AllNamed(j, obs, r.value);
      if !all { return Err(MissingObservations); }
    }
  }

  lemma StepsInjective(j: Journal, inspected: map<U32, ObservationKind>, s: set<RecoveryStep>)
    requires forall x :: x in s ==> StepFor(j, inspected, x)
    ensures InjectiveOn(s, StepRank)
  {
  }

  /** `decide_recovery`. */
  method Decide(j: Journal, owner: Owner, obs: seq<Observation>) returns (r: Result<Decision, DecisionError>)
    ensures r == Err(InvalidJournal) <==> !ValidJournal(j)
    ensures ValidJournal(j) && owner.OwnerActive? ==> r == Ok(LeaveActive)
    ensures ValidJournal(j) && owner.Ambiguous? ==> r == Ok(Refuse(AmbiguousOwner))
    ensures ValidJournal(j) && owner.Stale? && j.phase.Conflict? ==> r == Ok(Refuse(JournalAlreadyInConflict))
    ensures ValidJournal(j) && owner.Stale? && !j.phase.Conflict? ==> (r.Ok? <==> Complete(j, obs))
    ensures r.Ok? && owner.Stale? && !j.phase.Conflict? ==>
              exists inspected :: Inspects(obs, |obs|, inspected) && Decided(j, inspected, r.value)
  {
    if !ValidJournal(j) { return Err(InvalidJournal); }
    match owner
    case OwnerActive => return Ok(LeaveActive);
    case Ambiguous => return Ok(Refuse(AmbiguousOwner));
    case Stale =>
      if j.phase.Conflict? { return Ok(Refuse(JournalAlreadyInConflict)); }
      var read := ReadObservations(j, obs);
      if read.Err? { return Err(read.error); }
      var inspected := read.value;
      var conflicts := ForeignOf(inspected);
      if conflicts != {} {
        assert Decided(j, inspected, Refuse(ResourceConflict(conflicts)));
        return Ok(Refuse(ResourceConflict(conflicts)));
      }
      var steps := PlanSteps(j, inspected);
      assert Decided(j, inspected, Execute(j.generation, steps));
      return Ok(Execute(j.generation, steps));
  }

  function ForeignOf(inspected: map<U32, ObservationKind>): set<U32> {
    set id | id in inspected && inspected[id].Foreign?
  }

  /** A conflict anywhere suppresses the plan; otherwise the plan covers everything. */
  ghost predicate Decided(j: Journal, inspected: map<U32, ObservationKind>, d: Decision) {
    if ForeignOf(inspected) != {} then d == Refuse(ResourceConflict(ForeignOf(inspected)))
    else d.Execute? && d.generation == j.generation && IsPlan(j, inspected, d.steps)
  }

  method PlanSteps(j: Journal, inspected: map<U32, ObservationKind>) returns (steps: seq<RecoveryStep>)
    requires ValidJournal(j)
    ensures IsPlan(j, inspected, steps)
  {
    var all: set<RecoveryStep> := {};
    for i := 0 to |j.operations|
      invariant forall s :: s in all <==> StepFor(j, inspected, s) && s.id <= i
    {
      var id: U32 := i + 1;
      if LiveId(j, id) && id in inspected {
        all := all + {RecoveryStep(id, ActionFor(inspected[id]), j.operations[i].resource)};
      }
    }
    StepsInjective(j, inspected, all);
    steps := Ascending(all, StepRank);
  }

  // ----------------------------------------------------------------------- adapter

  type Group = map<Resource, ObservationKind>

  datatype ConvergenceError = ConflictError | OperationalError

  datatype Convergence = Converges | Conflicts | Fails

  /** The next outcome of a script, and the rest; what it leaves open goes well. */
  function Head(outcomes: seq<Convergence>): Convergence { if outcomes == [] then Converges else outcomes[0] }
  function Tail(outcomes: seq<Convergence>): seq<Convergence> { if outcomes == [] then [] else outcomes[1..] }

  function Ended(c: Convergence): Result<(), ConvergenceError> {
    match c
    case Converges => Ok(())
    case Conflicts => Err(ConflictError)
    case Fails => Err(OperationalError)
  }

  function Live(ops: seq<Record>): (r: seq<(U32, Resource)>) {
    if ops == [] then [] else
      var init, last := Live(ops[..|ops| - 1]), ops[|ops| - 1];
      if last.state.Removed? then init else init + [(last.id, last.resource)]
  }

  function Recognizers(groups: seq<Group>, resource: Resource): nat {
    if groups == [] then 0 else
      Recognizers(groups[..|groups| - 1], resource) + (if resource in groups[|groups| - 1] then 1 else 0)
  }

  class PreparedHostRecoveryAdapter {
    const log: EventLog
    const generation: U64
    const live: seq<(U32, Resource)>
    const observations: seq<Observation>
    const groups: seq<Group>
    const session: nat
    var inspectionComplete: bool
    /** Outcome of each coming removal. */
    var outcomes: seq<Convergence>

    constructor (log: EventLog, session: nat, generation: U64, live: seq<(U32, Resource)>, observations: seq<Observation>, groups: seq<Group>, outcomes: seq<Convergence>)
      ensures this.log == log && this.generation == generation && this.live == live && this.observations == observations
      ensures this.session == session && this.groups == groups && this.outcomes == outcomes && !inspectionComplete
    {
      this.session := session;
      this.log, this.generation, this.live, this.observations, this.groups := log, generation, live, observations, groups;
      this.outcomes, this.inspectionComplete := outcomes, false;
    }

    /** Every live resource is owned by exactly one group and observed once. */
    ghost predicate Valid() {
      |observations| == |live| &&
      forall k :: 0 <= k < |live| ==> observations[k].id == live[k].0 && Recognizers(groups, live[k].1) == 1
    }

    /** `inspect_all`: only for the journal the adapter was prepared from. */
    method InspectAll(j: Journal) returns (r: Result<seq<Observation>, ()>)
      modifies this`inspectionComplete, log
      ensures r.Ok? <==> j.session == session && j.generation == generation && Live(j.operations) == live
      ensures r.Ok? ==> r.value == observations && inspectionComplete && log.events == old(log.events) + [Inspected]
      ensures r.Err? ==> log.events == old(log.events) && inspectionComplete == old(inspectionComplete)
    {
      if j.session != session || j.generation != generation || Live(j.operations) != live { return Err(()); }
      inspectionComplete := true;
      log.Add(Inspected);
      return Ok(observations);
    }

    method RunGroup(resource: Resource) returns (r: Result<(), ConvergenceError>)
      modifies this`outcomes, log
      ensures log.events == old(log.events) + [if r.Ok? then Converged(resource) else ConvergeFailed(resource, r.error.ConflictError?)]
      ensures r == Ended(Head(old(outcomes))) && outcomes == Tail(old(outcomes))
    {
      var outcome := Head(outcomes);
      outcomes := Tail(outcomes);
      match outcome
      case Converges => log.Add(Converged(resource)); r := Ok(());
      case Conflicts => log.Add(ConvergeFailed(resource, true)); r := Err(ConflictError);
      case Fails => log.Add(ConvergeFailed(resource, false)); r := Err(OperationalError);
    }

    /** `converge_absent`: refused before inspection; exactly one group must own the resource. */
    method ConvergeAbsent(resource: Resource) returns (r: Result<(), ConvergenceError>)
      modifies this`outcomes, log
      ensures !inspectionComplete ==> r == Err(OperationalError) && log.events == old(log.events)
      ensures r.Ok? ==> Recognizers(groups, resource) == 1 && log.events == old(log.events) + [Converged(resource)]
      ensures r.Err? && Recognizers(groups, resource) == 1 && inspectionComplete ==>
                log.events == old(log.events) + [ConvergeFailed(resource, r.error.ConflictError?)]
      ensures Recognizers(groups, resource) == 1 && inspectionComplete ==> r == Ended(Head(old(outcomes))) && outcomes == Tail(old(outcomes))
    {
      if !inspectionComplete { return Err(OperationalError); }
      var matched: Option<Result<(), ConvergenceError>> := None;
      for i := 0 to |groups|
        invariant matched.Some? <==> Recognizers(groups[..i], resource) == 1
        invariant matched.None? ==> Recognizers(groups[..i], resource) == 0 && log.events == old(log.events) && outcomes == old(outcomes)
        invariant matched.Some? ==>
                    log.events == old(log.events) + [if matched.value.Ok? then Converged(resource) else ConvergeFailed(resource, matched.value.error.ConflictError?)]
        invariant matched.Some? ==> matched.value == Ended(Head(old(outcomes))) && outcomes == Tail(old(outcomes))
      {
        assert groups[..i + 1][..i] == groups[..i];
        if resource in groups[i] {
          var result := RunGroup(resource);
          if matched.Some? {
            RecognizersGrow(groups, i + 1, resource);
            return Err(ConflictError);
          }
          matched := Some(result);
        }
      }
      assert groups[..|groups|] == groups;
      if matched.None? { return Err(ConflictError); }
      return matched.value;
    }
  }

  lemma {:induction false} RecognizersGrow(groups: seq<Group>, n: nat, resource: Resource)
    requires n <= |groups|
    ensures Recognizers(groups[..n], resource) <= Recognizers(groups, resource)
    decreases |groups|
  {
    if n < |groups| {
      var init := groups[..|groups| - 1];
      assert init[..n] == groups[..n];
      RecognizersGrow(init, n, resource);
    } else {
      assert groups[..n] == groups;
    }
  }

  // ---------------------------------------------------------------- recovery discipline

  /** What the disk holds after the events of a run that started from `j0`. */
  ghost function DiskAfter(j0: Journal, past: seq<Event>): Option<Journal> {
    if past == [] then Some(j0)
    else
      match past[|past| - 1]
      case DiskWrote(j) => Some(j)
      case DiskRemoved => None
      case _ => DiskAfter(j0, past[..|past| - 1])
  }

  lemma DiskNext(j0: Journal, past: seq<Event>, e: Event)
    ensures DiskAfter(j0, past + [e]) == if e.DiskWrote? then Some(e.journal) else if e.DiskRemoved? then None else DiskAfter(j0, past)
  {
    assert (past + [e])[..|past|] == past;
  }

  /** The resources were inspected in this run, since the process last started. */
  ghost predicate InspectedSince(past: seq<Event>) {
    past != [] && (past[|past| - 1].Inspected? || (!past[|past| - 1].Restarted? && InspectedSince(past[..|past| - 1])))
  }

  lemma InspectedNext(past: seq<Event>, e: Event)
    ensures InspectedSince(past + [e]) <==> e.Inspected? || (!e.Restarted? && InspectedSince(past))
  {
    assert (past + [e])[..|past|] == past;
  }

  /** The convergences that failed, each for a conflict or not. */
  ghost function Failures(events: seq<Event>): seq<bool> {
    if events == [] then []
    else
      var init, last := Failures(events[..|events| - 1]), events[|events| - 1];
      if last.ConvergeFailed? then init + [last.conflict] else init
  }

  lemma FailuresNext(past: seq<Event>, e: Event)
    ensures Failures(past + [e]) == if e.ConvergeFailed? then Failures(past) + [e.conflict] else Failures(past)
  {
    assert (past + [e])[..|past|] == past;
  }

  /** Some convergence failed, for a conflict or not. */
  ghost predicate SomeFailed(events: seq<Event>, conflict: bool) {
    exists x :: ConvergeFailed(x, conflict) in events
  }

  lemma {:induction false} FailuresAre(events: seq<Event>, conflict: bool)
    ensures SomeFailed(events, conflict) <==> conflict in Failures(events)
  {
    if events != [] {
      var init, last := events[..|events| - 1], events[|events| - 1];
      FailuresAre(init, conflict);
      assert events == init + [last];
      if SomeFailed(events, conflict) {
        var x :| ConvergeFailed(x, conflict) in events;
        assert last == ConvergeFailed(x, conflict) || ConvergeFailed(x, conflict) in init;
      }
      if SomeFailed(init, conflict) {
        var x :| ConvergeFailed(x, conflict) in init;
        assert ConvergeFailed(x, conflict) in events;
      }
      if last.ConvergeFailed? && last.conflict == conflict { assert ConvergeFailed(last.resource, conflict) in events; }
    }
  }

  /** At most one journal was written. */
  ghost predicate WroteAtMost(before: seq<Event>, after: seq<Event>) {
    |before| <= |after| <= |before| + 1 && after[..|before|] == before && (|after| > |before| ==> after[|before|].DiskWrote?)
  }

  lemma FailuresKept(before: seq<Event>, after: seq<Event>, n: nat)
    requires n <= |before| && WroteAtMost(before, after)
    ensures Failures(after[n..]) == Failures(before[n..])
  {
    if |after| > |before| {
      assert after[n..] == before[n..] + [after[|before|]];
      FailuresNext(before[n..], after[|before|]);
    } else {
      assert after == before;
    }
  }

  ghost predicate SameRecords(j0: Journal, j: Journal) {
    j.session == j0.session && |j.operations| == |j0.operations| &&
    forall k :: 0 <= k < |j.operations| ==> j.operations[k].id == j0.operations[k].id && j.operations[k].resource == j0.operations[k].resource
  }

  /** `j` differs from `j0` only in records removed after their resource converged. */
  ghost predicate Tracks(j0: Journal, j: Journal, past: seq<Event>) {
    SameRecords(j0, j) &&
    forall k :: 0 <= k < |j.operations| ==>
      j.operations[k].state == j0.operations[k].state || (j.operations[k].state.Removed? && Converged(j0.operations[k].resource) in past)
  }

  /** The next generation of a recovery: records are only removed. */
  ghost predicate Follows(j: Journal, next: Journal) {
    && next.generation == SatAdd64(j.generation, 1) && (next.phase.Cleaning? || next.phase.Conflict?) && SameRecords(j, next)
    && forall k :: 0 <= k < |j.operations| ==> next.operations[k].state == j.operations[k].state || next.operations[k].state.Removed?
  }

  /** What may happen after `past` in a recovery that started from `j0`. */
  ghost predicate Fine(j0: Journal, past: seq<Event>, e: Event) {
    match e
    case Converged(r) =>
      InspectedSince(past) &&
      forall k :: 0 <= k < |j0.operations| && !j0.operations[k].state.Removed? && j0.operations[k].resource.RemovalRank() < r.RemovalRank() ==>
        Converged(j0.operations[k].resource) in past
    case ConvergeFailed(_, _) => InspectedSince(past)
    case DiskWrote(j) => Tracks(j0, j, past) && DiskAfter(j0, past).Some? && Follows(DiskAfter(j0, past).value, j)
    case DiskRemoved =>
      DiskAfter(j0, past).Some? && FullyRemoved(DiskAfter(j0, past).value) &&
      forall k :: 0 <= k < |j0.operations| && !j0.operations[k].state.Removed? ==> Converged(j0.operations[k].resource) in past
    case Restarted => true
    case Inspected => true
    case _ => false
  }

  /** Nothing is removed before inspection is complete, the firewall goes last, a
      record is removed on disk only after its own resource converged, and the
      file goes only once every record is removed on disk. Holds at every point of the run, so at
      every point at which it may be cut short. */
  ghost predicate Disciplined(j0: Journal, events: seq<Event>) {
    forall i :: 0 <= i < |events| ==> Fine(j0, events[..i], events[i])
  }

  lemma DisciplinedNext(j0: Journal, past: seq<Event>, e: Event)
    requires Disciplined(j0, past) && Fine(j0, past, e)
    ensures Disciplined(j0, past + [e])
  {
    var all := past + [e];
    forall i | 0 <= i < |all| ensures Fine(j0, all[..i], all[i]) {
      assert all[..i] == if i < |past| then past[..i] else past;
      assert i < |past| ==> all[i] == past[i];
    }
  }

  lemma TracksMore(j0: Journal, j: Journal, past: seq<Event>, e: Event)
    requires Tracks(j0, j, past)
    ensures Tracks(j0, j, past + [e])
  {
  }

  /** Every live record has its step. */
  lemma StepOf(j: Journal, inspected: map<U32, ObservationKind>, steps: seq<RecoveryStep>, x: nat) returns (i: nat)
    requires IsPlan(j, inspected, steps) && |j.operations| <= MAX_OPERATIONS
    requires x < |j.operations| && !j.operations[x].state.Removed? && x + 1 in inspected
    ensures i < |steps| && steps[i].id == x + 1 && steps[i].resource == j.operations[x].resource
  {
    var s := RecoveryStep(x + 1, ActionFor(inspected[x + 1]), j.operations[x].resource);
    assert StepFor(j, inspected, s) && s in steps;
    i :| 0 <= i < |steps| && steps[i] == s;
  }

  /** Everything of lower rank than step `k` comes before it. */
  lemma LowerRanksFirst(j: Journal, inspected: map<U32, ObservationKind>, steps: seq<RecoveryStep>, k: nat, x: nat) returns (i: nat)
    requires IsPlan(j, inspected, steps) && k < |steps| && |j.operations| <= MAX_OPERATIONS
    requires x < |j.operations| && !j.operations[x].state.Removed? && x + 1 in inspected
    requires j.operations[x].resource.RemovalRank() < steps[k].resource.RemovalRank()
    ensures i < k && steps[i].resource == j.operations[x].resource
  {
    i := StepOf(j, inspected, steps, x);
    assert StepRank(steps[i]) < StepRank(steps[k]);
  }

  /** A step removes exactly what was seen present, and only notes what was not. */
  lemma PlannedAction(j: Journal, inspected: map<U32, ObservationKind>, steps: seq<RecoveryStep>, s: RecoveryStep)
    requires IsPlan(j, inspected, steps) && s in steps
    ensures s.id in inspected && (s.action == RemoveExactOwned <==> inspected[s.id] == ExactOwnedPresent)
  {
    assert StepFor(j, inspected, s);
  }

  /** Split-default routes go first, then the resolver, then the other routes, then the
      TUN, then the endpoint rules, and the firewall itself last. */
  lemma RemovalOrder(j: Journal, inspected: map<U32, ObservationKind>, steps: seq<RecoveryStep>, i: nat, k: nat)
    requires IsPlan(j, inspected, steps) && i < k < |steps| && |j.operations| <= MAX_OPERATIONS
    ensures var a, b := steps[i].resource, steps[k].resource;
            && (a.Firewall? ==> b.Firewall?)
            && (a.FirewallEndpoint? ==> b.Firewall? || b.FirewallEndpoint?)
            && (a.Tun? ==> b.Firewall? || b.FirewallEndpoint? || b.Tun?)
            && (a.Route? && !a.purpose.SplitDefault? ==> !b.Dns? && !(b.Route? && b.purpose.SplitDefault?))
            && (a.Dns? ==> !(b.Route? && b.purpose.SplitDefault?))
  {
    assert StepRank(steps[i]) < StepRank(steps[k]);
    assert steps[i] in steps && steps[k] in steps;
  }

  // ------------------------------------------------------------------------- driver

  datatype RunOutcome = Leave | Refused(refusal: Refusal) | Recovered(removed: nat)

  datatype RunError = InspectionFailed | PlanRejected(error: DecisionError) | JournalFailed(cause: JournalError) | RemovalFailed(id: U32)

  /** The planned steps are those of `j0`, in order, each owned by one group. */
  ghost predicate Planned(j0: Journal, inspected: map<U32, ObservationKind>, steps: seq<RecoveryStep>, groups: seq<Group>) {
    && ValidJournal(j0) && IsPlan(j0, inspected, steps)
    && (forall id: U32 :: LiveId(j0, id) ==> id in inspected)
    && (forall s :: s in steps ==> Recognizers(groups, s.resource) == 1)
  }

  /** Where the run stands after `k` steps. */
  ghost predicate Standing(j0: Journal, j: Journal, past: seq<Event>, steps: seq<RecoveryStep>, k: nat)
    requires k <= |steps|
  {
    && Disciplined(j0, past) && InspectedSince(past) && Tracks(j0, j, past) && j.phase.Cleaning?
    && NamesRecords(j0, steps) && DoneUpTo(j0, j, past, steps, k)
  }

  /** Each step names its own live record. */
  ghost predicate NamesRecords(j0: Journal, steps: seq<RecoveryStep>) {
    (forall i :: 0 <= i < |steps| ==> LiveId(j0, steps[i].id) && j0.operations[steps[i].id - 1].resource == steps[i].resource) &&
    (forall i, m :: 0 <= i < m < |steps| ==> steps[i].id != steps[m].id)
  }

  /** The first `k` steps converged and are acknowledged, the others not. */
  ghost predicate DoneUpTo(j0: Journal, j: Journal, past: seq<Event>, steps: seq<RecoveryStep>, k: nat)
    requires k <= |steps| && NamesRecords(j0, steps) && SameRecords(j0, j)
  {
    (forall i :: 0 <= i < k ==> Converged(steps[i].resource) in past && j.operations[steps[i].id - 1].state.Removed?) &&
    (forall i :: k <= i < |steps| ==> j.operations[steps[i].id - 1] == j0.operations[steps[i].id - 1])
  }

  lemma StepsDistinct(j0: Journal, inspected: map<U32, ObservationKind>, steps: seq<RecoveryStep>)
    requires IsPlan(j0, inspected, steps)
    ensures NamesRecords(j0, steps)
  {
    forall i | 0 <= i < |steps| ensures StepFor(j0, inspected, steps[i]) {
      assert steps[i] in steps;
    }
    forall i, m | 0 <= i < m < |steps| ensures steps[i].id != steps[m].id {
      assert StepRank(steps[i]) < StepRank(steps[m]);
    }
  }

  lemma StandingStart(j0: Journal, inspected: map<U32, ObservationKind>, steps: seq<RecoveryStep>, j: Journal, past: seq<Event>)
    requires IsPlan(j0, inspected, steps) && Disciplined(j0, past) && InspectedSince(past)
    requires j.operations == j0.operations && j.session == j0.session && j.phase.Cleaning?
    ensures Standing(j0, j, past, steps, 0)
  {
    StepsDistinct(j0, inspected, steps);
  }

  lemma ConvergedFine(j0: Journal, inspected: map<U32, ObservationKind>, groups: seq<Group>, j: Journal, past: seq<Event>, steps: seq<RecoveryStep>, k: nat)
    requires Planned(j0, inspected, steps, groups) && k < |steps| && Standing(j0, j, past, steps, k)
    ensures Fine(j0, past, Converged(steps[k].resource))
  {
    forall x | 0 <= x < |j0.operations| && !j0.operations[x].state.Removed? && j0.operations[x].resource.RemovalRank() < steps[k].resource.RemovalRank()
      ensures Converged(j0.operations[x].resource) in past {
      assert LiveId(j0, x + 1);
      var i := LowerRanksFirst(j0, inspected, steps, k, x);
    }
  }

  lemma StandingMore(j0: Journal, j: Journal, past: seq<Event>, e: Event, steps: seq<RecoveryStep>, k: nat)
    requires k <= |steps| && Standing(j0, j, past, steps, k) && Fine(j0, past, e) && !e.Restarted?
    ensures Standing(j0, j, past + [e], steps, k)
  {
    DisciplinedNext(j0, past, e);
    TracksMore(j0, j, past, e);
    InspectedNext(past, e);
  }

  lemma RemovedTracks(j0: Journal, j: Journal, past: seq<Event>, id: U32)
    requires 1 <= id <= |j.operations| && Tracks(j0, j, past) && Converged(j0.operations[id - 1].resource) in past
    ensures var next := Successor(j, Cleaning, WithState(j.operations, id, Removed)); Tracks(j0, next, past) && Follows(j, next)
  {
  }

  lemma StandingNext(j0: Journal, j: Journal, past: seq<Event>, steps: seq<RecoveryStep>, k: nat)
    requires k < |steps| && Standing(j0, j, past, steps, k) && Converged(steps[k].resource) in past
    ensures Standing(j0, Successor(j, Cleaning, WithState(j.operations, steps[k].id, Removed)), past, steps, k + 1)
  {
    RemovedTracks(j0, j, past, steps[k].id);
    DoneNext(j0, j, Successor(j, Cleaning, WithState(j.operations, steps[k].id, Removed)), past, steps, k);
  }

  lemma DoneNext(j0: Journal, j: Journal, next: Journal, past: seq<Event>, steps: seq<RecoveryStep>, k: nat)
    requires k < |steps| && NamesRecords(j0, steps) && SameRecords(j0, j) && DoneUpTo(j0, j, past, steps, k) && Converged(steps[k].resource) in past
    requires SameRecords(j0, next) && next.operations == WithState(j.operations, steps[k].id, Removed)
    ensures DoneUpTo(j0, next, past, steps, k + 1)
  {
    forall i | 0 <= i < |steps| && i != k ensures next.operations[steps[i].id - 1] == j.operations[steps[i].id - 1] {
      assert if i < k then steps[i].id != steps[k].id else steps[k].id != steps[i].id;
      assert LiveId(j0, steps[i].id) && LiveId(j0, steps[k].id);
    }
    assert LiveId(j0, steps[k].id);
  }

  lemma StandingLive(j0: Journal, j: Journal, past: seq<Event>, steps: seq<RecoveryStep>, k: nat)
    requires k < |steps| && Standing(j0, j, past, steps, k)
    ensures LiveId(j, steps[k].id)
  {
    assert LiveId(j0, steps[k].id) && j.operations[steps[k].id - 1] == j0.operations[steps[k].id - 1];
  }

  /** The acknowledgement of step `k` may go to disk. */
  ghost predicate Acknowledgeable(j0: Journal, j: Journal, now: seq<Event>, steps: seq<RecoveryStep>, k: nat) {
    && k < |steps| && LiveId(j, steps[k].id) && Disciplined(j0, now) && DiskAfter(j0, now) == Some(j) && Failures(now) == []
    && var next := Successor(j, Cleaning, WithState(j.operations, steps[k].id, Removed));
       Standing(j0, next, now + [DiskWrote(next)], steps, k + 1) && DiskAfter(j0, now + [DiskWrote(next)]) == Some(next)
  }

  lemma AcknowledgementFine(j0: Journal, j: Journal, now: seq<Event>, id: U32)
    requires 1 <= id <= |j.operations| && Tracks(j0, j, now) && Converged(j0.operations[id - 1].resource) in now && DiskAfter(j0, now) == Some(j)
    ensures Fine(j0, now, DiskWrote(Successor(j, Cleaning, WithState(j.operations, id, Removed))))
  {
    RemovedTracks(j0, j, now, id);
  }

  lemma StandingAcknowledged(j0: Journal, j: Journal, now: seq<Event>, steps: seq<RecoveryStep>, k: nat, next: Journal)
    requires k < |steps| && Standing(j0, j, now, steps, k) && Converged(steps[k].resource) in now && DiskAfter(j0, now) == Some(j)
    requires LiveId(j, steps[k].id) && next == Successor(j, Cleaning, WithState(j.operations, steps[k].id, Removed))
    ensures Standing(j0, next, now + [DiskWrote(next)], steps, k + 1)
  {
    assert LiveId(j0, steps[k].id);
    AcknowledgementFine(j0, j, now, steps[k].id);
    StandingNext(j0, j, now, steps, k);
    StandingMore(j0, next, now, DiskWrote(next), steps, k + 1);
  }

  /** So it is after step `k` converged. */
  lemma Acknowledged(j0: Journal, j: Journal, past: seq<Event>, steps: seq<RecoveryStep>, k: nat, now: seq<Event>)
    requires k < |steps| && Standing(j0, j, past, steps, k) && Fine(j0, past, Converged(steps[k].resource)) && DiskAfter(j0, past) == Some(j)
    requires Failures(past) == [] && now == past + [Converged(steps[k].resource)]
    ensures Acknowledgeable(j0, j, now, steps, k)
  {
    StandingLive(j0, j, past, steps, k);
    var next := Successor(j, Cleaning, WithState(j.operations, steps[k].id, Removed));
    StandingMore(j0, j, past, Converged(steps[k].resource), steps, k);
    DiskNext(j0, past, Converged(steps[k].resource));
    StandingAcknowledged(j0, j, now, steps, k, next);
    DiskNext(j0, now, DiskWrote(next));
    FailuresNext(past, Converged(steps[k].resource));
  }

  lemma DoneAt(j0: Journal, inspected: map<U32, ObservationKind>, j: Journal, past: seq<Event>, steps: seq<RecoveryStep>, x: nat)
    requires ValidJournal(j0) && IsPlan(j0, inspected, steps) && Standing(j0, j, past, steps, |steps|)
    requires x < |j0.operations| && !j0.operations[x].state.Removed? && x + 1 in inspected
    ensures j.operations[x].state.Removed? && Converged(j0.operations[x].resource) in past
  {
    var i := StepOf(j0, inspected, steps, x);
  }

  lemma AllDone(j0: Journal, inspected: map<U32, ObservationKind>, groups: seq<Group>, j: Journal, past: seq<Event>, steps: seq<RecoveryStep>)
    requires Planned(j0, inspected, steps, groups) && Standing(j0, j, past, steps, |steps|) && DiskAfter(j0, past) == Some(j)
    ensures FullyRemoved(j) && Fine(j0, past, DiskRemoved)
  {
    forall x | 0 <= x < |j0.operations| && !j0.operations[x].state.Removed?
      ensures j.operations[x].state.Removed? && Converged(j0.operations[x].resource) in past {
      assert LiveId(j0, x + 1);
      DoneAt(j0, inspected, j, past, steps, x);
    }
  }

  lemma Suffix(events: seq<Event>, n: nat, e: Event)
    requires n <= |events|
    ensures (events + [e])[n..] == events[n..] + [e]
  {
  }

  /** A failed or poisoned ending adds at most one harmless entry. */
  lemma PoisonFine(j0: Journal, j: Journal, past: seq<Event>, resource: Resource, conflict: bool)
    requires Disciplined(j0, past) && InspectedSince(past) && Tracks(j0, j, past) && DiskAfter(j0, past) == Some(j)
    ensures var now, next := past + [ConvergeFailed(resource, conflict)], Successor(j, Conflict, j.operations);
            Disciplined(j0, now) && DiskAfter(j0, now) == Some(j) &&
            Disciplined(j0, now + [DiskWrote(next)]) && DiskAfter(j0, now + [DiskWrote(next)]) == Some(next)
  {
    var e := ConvergeFailed(resource, conflict);
    DisciplinedNext(j0, past, e);
    TracksMore(j0, j, past, e);
    DiskNext(j0, past, e);
    DisciplinedNext(j0, past + [e], DiskWrote(Successor(j, Conflict, j.operations)));
    DiskNext(j0, past + [e], DiskWrote(Successor(j, Conflict, j.operations)));
  }

  ghost predicate Started(durable: DurableHostJournal, j0: Journal, steps: seq<RecoveryStep>, k: nat, past: seq<Event>)
    requires k <= |steps|
    reads durable
  {
    durable.Valid() && durable.Synced() && DiskAfter(j0, past) == durable.disk && Failures(past) == [] && Standing(j0, durable.journal, past, steps, k)
  }

  /** The disk is at most `room` generations past `j`, and in conflict only with cause. */
  ghost predicate Near(disk: Option<Journal>, j: Journal, room: nat, cause: bool) {
    disk.Some? ==> disk.value.generation <= j.generation + room && (disk.value.phase.Conflict? ==> cause || j.phase.Conflict?)
  }

  /** Durable acknowledgement of a step whose resource has just converged. */
  method AcknowledgeStep(durable: DurableHostJournal, ghost j0: Journal, steps: seq<RecoveryStep>, k: nat, ghost n: nat)
    returns (r: Result<(), JournalError>)
    requires durable.Valid() && durable.Synced() && durable.journal.phase.Cleaning?
    requires n <= |durable.log.events| && Acknowledgeable(j0, durable.journal, durable.log.events[n..], steps, k)
    modifies durable, durable.log
    ensures durable.Valid() && n <= |durable.log.events| && old(durable.log.events)[..n] == durable.log.events[..n]
    ensures Disciplined(j0, durable.log.events[n..])
    ensures durable.disk == DiskAfter(j0, durable.log.events[n..]) && Near(durable.disk, old(durable.journal), 1, false) && durable.disk.Some?
    ensures WroteAtMost(old(durable.log.events), durable.log.events)
    ensures r.Ok? ==> Started(durable, j0, steps, k + 1, durable.log.events[n..])
    ensures old(durable.faults) == [] && old(durable.journal).generation < U64_MAX ==> durable.faults == [] && r.Ok?
    ensures durable.journal.generation <= old(durable.journal).generation + 1
  {
    ghost var before := durable.log.events;
    Suffix(before, n, DiskWrote(Successor(durable.journal, Cleaning, WithState(durable.journal.operations, steps[k].id, Removed))));
    r := durable.AcknowledgeRecoveryStep(steps[k].id);
    FailuresKept(before, durable.log.events, n);
  }

  /** Durable refusal after a late conflict. */
  method Poison(durable: DurableHostJournal, ghost j0: Journal, resource: Resource, ghost past: seq<Event>, ghost n: nat) returns (r: Result<(), JournalError>)
    requires durable.Valid() && durable.Synced() && Disciplined(j0, past) && InspectedSince(past) && Tracks(j0, durable.journal, past)
    requires DiskAfter(j0, past) == durable.disk && durable.journal.phase.Cleaning?
    requires n <= |durable.log.events| && durable.log.events[n..] == past + [ConvergeFailed(resource, true)]
    modifies durable, durable.log
    ensures durable.Valid() && n <= |durable.log.events| && old(durable.log.events)[..n] == durable.log.events[..n]
    ensures Disciplined(j0, durable.log.events[n..])
    ensures durable.disk == DiskAfter(j0, durable.log.events[n..]) && Near(durable.disk, old(durable.journal), 1, true) && durable.disk.Some?
    ensures WroteAtMost(old(durable.log.events), durable.log.events)
    ensures r.Ok? ==> Poisoned(durable, old(durable.journal))
    ensures old(durable.faults) == [] && old(durable.journal).generation < U64_MAX ==> r.Ok?
    ensures durable.journal.generation <= old(durable.journal).generation + 1
  {
    PoisonFine(j0, durable.journal, past, resource, true);
    Suffix(durable.log.events, n, DiskWrote(Successor(durable.journal, Conflict, durable.journal.operations)));
    r := durable.MarkConflict();
  }

  /** A conflict is on disk, with the records of `j`. */
  ghost predicate Poisoned(durable: DurableHostJournal, j: Journal)
    reads durable
  {
    durable.Synced() && durable.journal == Successor(j, Conflict, j.operations)
  }

  /** What a step answers to the end of its convergence when every write works. */
  function StepAnswer(converged: Result<(), ConvergenceError>, id: U32): Result<Option<Refusal>, RunError> {
    if converged.Ok? then Ok(None)
    else if converged.error.ConflictError? then Ok(Some(ResourceConflict({id})))
    else Err(RemovalFailed(id))
  }

  /** The answer tells the failed convergences apart: a conflict is never taken for a
      retryable failure nor the other way round, and neither passes for a success. */
  ghost predicate StepTold(failures: seq<bool>, r: Result<Option<Refusal>, RunError>) {
    match r
    case Ok(None) => failures == []
    case Ok(Some(_)) => failures == [true]
    case Err(e) => if e.RemovalFailed? then failures == [false] else e.JournalFailed? && (failures == [] || failures == [true])
  }

  /** What follows a convergence: acknowledgement, poison, or an error. */
  method SettleStep(durable: DurableHostJournal, ghost j0: Journal, steps: seq<RecoveryStep>, k: nat, converged: Result<(), ConvergenceError>,
                    ghost past: seq<Event>, ghost n: nat)
    returns (r: Result<Option<Refusal>, RunError>)
    requires k < |steps| && Started(durable, j0, steps, k, past) && Fine(j0, past, Converged(steps[k].resource)) && n <= |durable.log.events|
    requires durable.log.events[n..] ==
             past + [if converged.Ok? then Converged(steps[k].resource) else ConvergeFailed(steps[k].resource, converged.error.ConflictError?)]
    modifies durable, durable.log
    ensures durable.Valid() && n <= |durable.log.events| && old(durable.log.events)[..n] == durable.log.events[..n]
    ensures Disciplined(j0, durable.log.events[n..]) && durable.disk == DiskAfter(j0, durable.log.events[n..])
    ensures Near(durable.disk, old(durable.journal), 1, converged == Err(ConflictError)) && durable.disk.Some?
    ensures StepTold(Failures(durable.log.events[n..]), r)
    ensures r == Ok(None) ==> Started(durable, j0, steps, k + 1, durable.log.events[n..])
    ensures r.Ok? && r.value.Some? ==> r.value == Some(ResourceConflict({steps[k].id})) && Poisoned(durable, old(durable.journal))
    ensures r.Err? && r.error.RemovalFailed? ==> durable.Synced() && durable.journal == old(durable.journal) && r.error.id == steps[k].id
    ensures old(durable.faults) == [] && old(durable.journal).generation < U64_MAX ==> r == StepAnswer(converged, steps[k].id)
    ensures old(durable.faults) == [] && old(durable.journal).generation < U64_MAX && r == Ok(None) ==> durable.faults == []
    ensures durable.journal.generation <= old(durable.journal).generation + 1
  {
    ghost var before := durable.log.events;
    FailuresNext(past, before[n..][|past|]);
    if converged.Ok? {
      Acknowledged(j0, durable.journal, past, steps, k, durable.log.events[n..]);
      var acknowledged := AcknowledgeStep(durable, j0, steps, k, n);
      FailuresKept(before, durable.log.events, n);
      return if acknowledged.Ok? then Ok(None) else Err(JournalFailed(acknowledged.error));
    } else if converged.error.ConflictError? {
      var marked := Poison(durable, j0, steps[k].resource, past, n);
      FailuresKept(before, durable.log.events, n);
      return if marked.Ok? then Ok(Some(ResourceConflict({steps[k].id}))) else Err(JournalFailed(marked.error));
    } else {
      PoisonFine(j0, durable.journal, past, steps[k].resource, false);
      return Err(RemovalFailed(steps[k].id));
    }
  }

  /** One step of the plan: converge, then acknowledge. */
  method RunStep(durable: DurableHostJournal, adapter: PreparedHostRecoveryAdapter, ghost j0: Journal, ghost inspected: map<U32, ObservationKind>,
                 steps: seq<RecoveryStep>, k: nat, ghost n: nat)
    returns (r: Result<Option<Refusal>, RunError>)
    requires durable.log == adapter.log && adapter.inspectionComplete && n <= |durable.log.events|
    requires Planned(j0, inspected, steps, adapter.groups) && k < |steps| && Started(durable, j0, steps, k, durable.log.events[n..])
    modifies durable, adapter`outcomes, durable.log
    ensures durable.Valid() && n <= |durable.log.events| && old(durable.log.events)[..n] == durable.log.events[..n]
    ensures Disciplined(j0, durable.log.events[n..]) && durable.disk == DiskAfter(j0, durable.log.events[n..])
    ensures Near(durable.disk, old(durable.journal), 1, Conflicts in old(adapter.outcomes)) && durable.disk.Some?
    ensures adapter.outcomes == Tail(old(adapter.outcomes)) && StepTold(Failures(durable.log.events[n..]), r)
    ensures r == Ok(None) ==> Started(durable, j0, steps, k + 1, durable.log.events[n..])
    ensures r.Ok? && r.value.Some? ==> r.value == Some(ResourceConflict({steps[k].id})) && Poisoned(durable, old(durable.journal))
    ensures r.Err? && r.error.RemovalFailed? ==> durable.Synced() && durable.journal == old(durable.journal) && r.error.id == steps[k].id
    ensures old(durable.faults) == [] && old(durable.journal).generation < U64_MAX ==> r == StepAnswer(Ended(Head(old(adapter.outcomes))), steps[k].id)
    ensures old(durable.faults) == [] && old(durable.journal).generation < U64_MAX && r == Ok(None) ==> durable.faults == []
    ensures durable.journal.generation <= old(durable.journal).generation + 1
  {
    var resource := steps[k].resource;
    assert steps[k] in steps;
    ghost var past := durable.log.events[n..];
    ConvergedFine(j0, inspected, adapter.groups, durable.journal, past, steps, k);
    Suffix(durable.log.events, n, Converged(resource));
    Suffix(durable.log.events, n, ConvergeFailed(resource, true));
    Suffix(durable.log.events, n, ConvergeFailed(resource, false));
    var converged := adapter.ConvergeAbsent(resource);
    r := SettleStep(durable, j0, steps, k, converged, past, n);
  }

  /** What is left after `k` steps: exactly the first `k` planned records are removed. */
  ghost predicate Resumable(j0: Journal, j: Journal, steps: seq<RecoveryStep>, k: nat) {
    && k < |steps| && SameRecords(j0, j)
    && (forall i :: 0 <= i < |steps| ==> 1 <= steps[i].id <= |j.operations|)
    && (forall i :: 0 <= i < |steps| ==> (j.operations[steps[i].id - 1].state.Removed? <==> i < k))
  }

  lemma StandingResumes(j0: Journal, j: Journal, past: seq<Event>, steps: seq<RecoveryStep>, k: nat)
    requires k < |steps| && Standing(j0, j, past, steps, k)
    ensures Resumable(j0, j, steps, k)
  {
    assert forall i :: 0 <= i < |steps| ==> LiveId(j0, steps[i].id);
  }

  lemma ResumablePoisoned(j0: Journal, j: Journal, steps: seq<RecoveryStep>, k: nat)
    requires Resumable(j0, j, steps, k)
    ensures Resumable(j0, Successor(j, Conflict, j.operations), steps, k)
  {
  }

  method FinishPlan(durable: DurableHostJournal, ghost j0: Journal, ghost inspected: map<U32, ObservationKind>, ghost groups: seq<Group>,
                    steps: seq<RecoveryStep>, ghost n: nat)
    returns (r: Result<RunOutcome, RunError>)
    requires n <= |durable.log.events| && Planned(j0, inspected, steps, groups) && Started(durable, j0, steps, |steps|, durable.log.events[n..])
    modifies durable, durable.log
    ensures n <= |durable.log.events| && old(durable.log.events)[..n] == durable.log.events[..n]
    ensures Disciplined(j0, durable.log.events[n..]) && durable.disk == DiskAfter(j0, durable.log.events[n..])
    ensures durable.disk == None || durable.disk == old(durable.disk)
    ensures Failures(durable.log.events[n..]) == []
    ensures r.Ok? ==> r.value == Recovered(|steps|) && durable.disk == None
    ensures r.Err? ==> r.error.JournalFailed?
    ensures old(durable.faults) == [] ==> r.Ok?
  {
    AllDone(j0, inspected, groups, durable.journal, durable.log.events[n..], steps);
    DisciplinedNext(j0, durable.log.events[n..], DiskRemoved);
    DiskNext(j0, durable.log.events[n..], DiskRemoved);
    FailuresNext(durable.log.events[n..], DiskRemoved);
    Suffix(durable.log.events, n, DiskRemoved);
    var removed := durable.RemoveCompletedFile();
    r := if removed.Ok? then Ok(Recovered(|steps|)) else Err(JournalFailed(removed.error));
  }

  /** The outcome of a plan when every write works: the first convergence that fails, if
      one does, decides. */
  function Foretold(outcomes: seq<Convergence>, steps: seq<RecoveryStep>, k: nat): (r: Result<RunOutcome, RunError>)
    requires k <= |steps|
    ensures r.Err? ==> r.error.RemovalFailed?
    decreases |steps| - k
  {
    if k == |steps| then Ok(Recovered(|steps|))
    else
      match Head(outcomes)
      case Converges => Foretold(Tail(outcomes), steps, k + 1)
      case Conflicts => Ok(Refused(ResourceConflict({steps[k].id})))
      case Fails => Err(RemovalFailed(steps[k].id))
  }

  lemma {:induction false} ForetoldWell(steps: seq<RecoveryStep>, k: nat)
    requires k <= |steps|
    ensures Foretold([], steps, k) == Ok(Recovered(|steps|))
    decreases |steps| - k
  {
    if k < |steps| { ForetoldWell(steps, k + 1); }
  }

  /** The outcome tells the failed convergences apart. */
  ghost predicate Told(failures: seq<bool>, r: Result<RunOutcome, RunError>) {
    match r
    case Ok(outcome) => failures == if outcome.Refused? then [true] else []
    case Err(e) => if e.RemovalFailed? then failures == [false] else failures == [] || failures == [true]
  }

  /** No write fails, and the generation counter has room. */
  ghost predicate Faultless(durable: DurableHostJournal, room: nat)
    reads durable
  {
    durable.faults == [] && durable.journal.generation + room < U64_MAX
  }

  /** Nothing is left to go wrong, and the generation counter has room. */
  ghost predicate Undisturbed(durable: DurableHostJournal, adapter: PreparedHostRecoveryAdapter, room: nat)
    reads durable, adapter
  {
    durable.faults == [] && adapter.outcomes == [] && durable.journal.generation + room < U64_MAX
  }

  /** The plan ended at step `k`, refused with the conflict on disk or with a failure that
      can be retried; the records are those of `k` acknowledged steps. */
  ghost predicate Stopped(durable: DurableHostJournal, j0: Journal, steps: seq<RecoveryStep>, k: nat, r: Result<RunOutcome, RunError>)
    requires k < |steps|
    reads durable
  {
    match r
    case Ok(outcome) =>
      outcome == Refused(ResourceConflict({steps[k].id})) && durable.Synced() && durable.journal.phase.Conflict? && Resumable(j0, durable.journal, steps, k)
    case Err(e) =>
      e.JournalFailed? ||
      (e == RemovalFailed(steps[k].id) && durable.Valid() && durable.Synced() && durable.journal.phase.Cleaning? && Resumable(j0, durable.journal, steps, k))
  }

  /** Step `k` of a plan, and its end if it is one. */
  method RunStepOrStop(durable: DurableHostJournal, adapter: PreparedHostRecoveryAdapter, ghost j0: Journal, ghost inspected: map<U32, ObservationKind>,
                       steps: seq<RecoveryStep>, k: nat, ghost n: nat)
    returns (stop: Option<Result<RunOutcome, RunError>>)
    requires durable.log == adapter.log && adapter.inspectionComplete && n <= |durable.log.events|
    requires Planned(j0, inspected, steps, adapter.groups) && k < |steps| && Started(durable, j0, steps, k, durable.log.events[n..])
    modifies durable, adapter`outcomes, durable.log
    ensures n <= |durable.log.events| && old(durable.log.events)[..n] == durable.log.events[..n]
    ensures Disciplined(j0, durable.log.events[n..]) && durable.disk == DiskAfter(j0, durable.log.events[n..])
    ensures Near(durable.disk, old(durable.journal), 1, Conflicts in old(adapter.outcomes)) && durable.disk.Some? && adapter.outcomes == Tail(old(adapter.outcomes))
    ensures durable.journal.generation <= old(durable.journal).generation + 1
    ensures stop.None? ==> Started(durable, j0, steps, k + 1, durable.log.events[n..])
    ensures stop.Some? ==> Stopped(durable, j0, steps, k, stop.value) && Told(Failures(durable.log.events[n..]), stop.value)
    ensures old(Faultless(durable, 1)) ==>
              if stop.None? then durable.faults == [] && Foretold(old(adapter.outcomes), steps, k) == Foretold(adapter.outcomes, steps, k + 1)
              else Foretold(old(adapter.outcomes), steps, k) == stop.value
  {
    ghost var j := durable.journal;
    StandingResumes(j0, j, durable.log.events[n..], steps, k);
    ResumablePoisoned(j0, j, steps, k);
    var step := RunStep(durable, adapter, j0, inspected, steps, k, n);
    match step
    case Ok(None) => stop := None;
    case Ok(Some(refusal)) => stop := Some(Ok(Refused(refusal)));
    case Err(e) => stop := Some(Err(e));
  }

  /** The loop over the plan. */
  method RunSteps(durable: DurableHostJournal, adapter: PreparedHostRecoveryAdapter, ghost j0: Journal, ghost inspected: map<U32, ObservationKind>,
                  steps: seq<RecoveryStep>, ghost n: nat)
    returns (stop: Option<Result<RunOutcome, RunError>>, ghost reached: nat)
    requires durable.log == adapter.log && adapter.inspectionComplete && n <= |durable.log.events|
    requires Planned(j0, inspected, steps, adapter.groups) && Started(durable, j0, steps, 0, durable.log.events[n..])
    modifies durable, adapter`outcomes, durable.log
    ensures n <= |durable.log.events| && old(durable.log.events)[..n] == durable.log.events[..n]
    ensures Disciplined(j0, durable.log.events[n..]) && durable.disk == DiskAfter(j0, durable.log.events[n..]) && durable.disk.Some?
    ensures Near(durable.disk, old(durable.journal), |steps|, Conflicts in old(adapter.outcomes))
    ensures stop.None? ==> Started(durable, j0, steps, |steps|, durable.log.events[n..])
    ensures stop.Some? ==> reached < |steps| && Stopped(durable, j0, steps, reached, stop.value) && Told(Failures(durable.log.events[n..]), stop.value)
    ensures old(Faultless(durable, |steps|)) ==>
              Foretold(old(adapter.outcomes), steps, 0) == (if stop.None? then Ok(Recovered(|steps|)) else stop.value) && (stop.None? ==> durable.faults == [])
  {
    stop, reached := None, 0;
    ghost var calm, script, j := Faultless(durable, |steps|), adapter.outcomes, durable.journal;
    for k := 0 to |steps|
      invariant stop.None? && reached == k && n <= |durable.log.events| && old(durable.log.events)[..n] == durable.log.events[..n]
      invariant Started(durable, j0, steps, k, durable.log.events[n..])
      invariant calm ==> durable.faults == [] && Foretold(adapter.outcomes, steps, k) == Foretold(script, steps, 0)
      invariant durable.journal.generation <= j.generation + k
      invariant Conflicts in adapter.outcomes ==> Conflicts in script
    {
      stop := RunStepOrStop(durable, adapter, j0, inspected, steps, k, n);
      if stop.Some? { return; }
      reached := k + 1;
    }
  }

  /** The loop over the plan, and removal of the completed file. */
  method RunPlan(durable: DurableHostJournal, adapter: PreparedHostRecoveryAdapter, ghost j0: Journal, ghost inspected: map<U32, ObservationKind>,
                 steps: seq<RecoveryStep>, ghost n: nat)
    returns (r: Result<RunOutcome, RunError>, ghost reached: nat)
    requires durable.log == adapter.log && adapter.inspectionComplete && n <= |durable.log.events|
    requires Planned(j0, inspected, steps, adapter.groups) && Started(durable, j0, steps, 0, durable.log.events[n..])
    modifies durable, adapter`outcomes, durable.log
    ensures n <= |durable.log.events| && old(durable.log.events)[..n] == durable.log.events[..n]
    ensures Disciplined(j0, durable.log.events[n..]) && durable.disk == DiskAfter(j0, durable.log.events[n..])
    ensures Near(durable.disk, old(durable.journal), |steps|, Conflicts in old(adapter.outcomes))
    ensures reached <= |steps| && Told(Failures(durable.log.events[n..]), r)
    ensures Failures(durable.log.events[n..]) != [] ==> durable.disk.Some?
    ensures reached < |steps| ==> Stopped(durable, j0, steps, reached, r)
    ensures reached == |steps| ==> (r == Ok(Recovered(|steps|)) && durable.disk == None) || (r.Err? && r.error.JournalFailed?)
    ensures old(Faultless(durable, |steps|)) ==> r == Foretold(old(adapter.outcomes), steps, 0)
  {
    var stop;
    stop, reached := RunSteps(durable, adapter, j0, inspected, steps, n);
    if stop.Some? { return stop.value, reached; }
    reached := |steps|;
    r := FinishPlan(durable, j0, inspected, adapter.groups, steps, n);
  }

  // ------------------------------------------------------------- prepared observations

  ghost predicate ListsLive(ops: seq<Record>, live: seq<(U32, Resource)>) {
    && SoundLive(ops, live) && OrderedLive(live)
    && (forall i :: 0 <= i < |ops| && !ops[i].state.Removed? ==> (i + 1, ops[i].resource) in live)
  }

  ghost predicate LiveEntry(ops: seq<Record>, id: U32, resource: Resource) {
    1 <= id <= |ops| && !ops[id - 1].state.Removed? && resource == ops[id - 1].resource
  }

  ghost predicate SoundLive(ops: seq<Record>, live: seq<(U32, Resource)>) {
    forall k :: 0 <= k < |live| ==> LiveEntry(ops, live[k].0, live[k].1)
  }

  ghost predicate OrderedLive(live: seq<(U32, Resource)>) {
    forall a, b :: 0 <= a < b < |live| ==> live[a].0 < live[b].0
  }

  lemma {:induction false} LiveSound(ops: seq<Record>, k: nat)
    requires |ops| <= MAX_OPERATIONS && forall i :: 0 <= i < |ops| ==> ops[i].id == i + 1
    requires k < |Live(ops)|
    ensures LiveEntry(ops, Live(ops)[k].0, Live(ops)[k].1)
  {
    var init := ops[..|ops| - 1];
    if k < |Live(init)| {
      LiveSound(init, k);
    }
  }

  lemma {:induction false} LiveOrdered(ops: seq<Record>, a: nat, b: nat)
    requires |ops| <= MAX_OPERATIONS && forall i :: 0 <= i < |ops| ==> ops[i].id == i + 1
    requires a < b < |Live(ops)|
    ensures Live(ops)[a].0 < Live(ops)[b].0
  {
    var init := ops[..|ops| - 1];
    if b < |Live(init)| {
      LiveOrdered(init, a, b);
    } else {
      LiveSound(init, a);
    }
  }

  lemma {:induction false} LiveCovers(ops: seq<Record>, i: nat)
    requires |ops| <= MAX_OPERATIONS && forall i :: 0 <= i < |ops| ==> ops[i].id == i + 1
    requires i < |ops| && !ops[i].state.Removed?
    ensures (i + 1, ops[i].resource) in Live(ops)
  {
    var init := ops[..|ops| - 1];
    if i < |init| {
      LiveCovers(init, i);
    } else {
      assert Live(ops)[|Live(init)|] == (ops[i].id, ops[i].resource);
    }
  }

  lemma AllSound(ops: seq<Record>)
    requires |ops| <= MAX_OPERATIONS && forall i :: 0 <= i < |ops| ==> ops[i].id == i + 1
    ensures SoundLive(ops, Live(ops))
  {
    forall k | 0 <= k < |Live(ops)| ensures LiveEntry(ops, Live(ops)[k].0, Live(ops)[k].1) {
      LiveSound(ops, k);
    }
  }

  lemma AllOrdered(ops: seq<Record>)
    requires |ops| <= MAX_OPERATIONS && forall i :: 0 <= i < |ops| ==> ops[i].id == i + 1
    ensures OrderedLive(Live(ops))
  {
    forall a, b | 0 <= a < b < |Live(ops)| ensures Live(ops)[a].0 < Live(ops)[b].0 {
      LiveOrdered(ops, a, b);
    }
  }

  lemma LiveLists(ops: seq<Record>)
    requires |ops| <= MAX_OPERATIONS && forall i :: 0 <= i < |ops| ==> ops[i].id == i + 1
    ensures ListsLive(ops, Live(ops))
  {
    AllSound(ops);
    AllOrdered(ops);
    forall i | 0 <= i < |ops| && !ops[i].state.Removed? ensures (i + 1, ops[i].resource) in Live(ops) {
      LiveCovers(ops, i);
    }
  }

  /** Whatever journal it was prepared from, an adapter's observations of that
      journal are complete, so planning never rejects them. */
  lemma PreparedComplete(j: Journal, live: seq<(U32, Resource)>, obs: seq<Observation>)
    requires ValidJournal(j) && live == Live(j.operations) && |obs| == |live|
    requires forall k :: 0 <= k < |live| ==> obs[k].id == live[k].0
    ensures Complete(j, obs)
  {
    LiveLists(j.operations);
    forall id: nat | LiveId(j, id) ensures Named(obs, id) {
      assert (id, j.operations[id - 1].resource) in live;
      var k :| 0 <= k < |live| && live[k] == (id, j.operations[id - 1].resource);
      assert obs[k].id == id;
    }
  }

  lemma PlannedFor(j: Journal, adapterLive: seq<(U32, Resource)>, obs: seq<Observation>, inspected: map<U32, ObservationKind>, steps: seq<RecoveryStep>, groups: seq<Group>)
    requires ValidJournal(j) && adapterLive == Live(j.operations) && Complete(j, obs) && Inspects(obs, |obs|, inspected) && IsPlan(j, inspected, steps)
    requires forall k :: 0 <= k < |adapterLive| ==> Recognizers(groups, adapterLive[k].1) == 1
    ensures Planned(j, inspected, steps, groups)
  {
    LiveLists(j.operations);
    forall id: U32 | LiveId(j, id) ensures id in inspected {
      var k :| 0 <= k < |obs| && obs[k].id == id;
    }
    forall s | s in steps ensures Recognizers(groups, s.resource) == 1 {
      assert StepFor(j, inspected, s);
      assert (s.id, s.resource) in adapterLive;
      var k :| 0 <= k < |adapterLive| && adapterLive[k] == (s.id, s.resource);
    }
  }

  /** Some group recognizes the resource and sees it so. */
  ghost predicate SeenIn(groups: seq<Group>, resource: Resource, kind: ObservationKind) {
    exists i :: 0 <= i < |groups| && resource in groups[i] && groups[i][resource] == kind
  }

  method FindOwner(groups: seq<Group>, resource: Resource) returns (count: nat, kind: ObservationKind)
    ensures count == Recognizers(groups, resource)
    ensures count >= 1 ==> SeenIn(groups, resource, kind)
  {
    count, kind := 0, Foreign;
    for i := 0 to |groups|
      invariant count == Recognizers(groups[..i], resource)
      invariant count >= 1 ==> exists m :: 0 <= m < i && resource in groups[m] && groups[m][resource] == kind
    {
      assert groups[..i + 1][..i] == groups[..i];
      if resource in groups[i] {
        count, kind := count + 1, groups[i][resource];
      }
    }
    assert groups[..|groups|] == groups;
  }

  /** `PreparedHostRecoveryAdapter::new`: every live record must belong to exactly one group. */
  method PrepareAdapter(log: EventLog, j: Journal, groups: seq<Group>, outcomes: seq<Convergence>) returns (r: Result<PreparedHostRecoveryAdapter, ()>)
    ensures r.Ok? <==> forall k :: 0 <= k < |Live(j.operations)| ==> Recognizers(groups, Live(j.operations)[k].1) == 1
    ensures r.Ok? ==> fresh(r.value) && r.value.Valid() && r.value.log == log && r.value.groups == groups && r.value.outcomes == outcomes
    ensures r.Ok? ==> r.value.session == j.session && r.value.generation == j.generation && r.value.live == Live(j.operations)
    ensures r.Ok? ==> forall k :: 0 <= k < |r.value.live| ==> SeenIn(groups, r.value.live[k].1, r.value.observations[k].kind)
  {
    var live := Live(j.operations);
    var observations: seq<Observation> := [];
    for k := 0 to |live|
      invariant |observations| == k
      invariant forall m :: 0 <= m < k ==> observations[m].id == live[m].0 && Recognizers(groups, live[m].1) == 1
      invariant forall m :: 0 <= m < k ==> SeenIn(groups, live[m].1, observations[m].kind)
    {
      var count, kind := FindOwner(groups, live[k].1);
      if count != 1 {
        assert Recognizers(groups, Live(j.operations)[k].1) != 1;
        return Err(());
      }
      observations := observations + [Observation(live[k].0, kind)];
    }
    var adapter := new PreparedHostRecoveryAdapter(log, j.session, j.generation, live, observations, groups, outcomes);
    return Ok(adapter);
  }

  ghost predicate SeesConflict(obs: seq<Observation>) {
    exists k :: 0 <= k < |obs| && obs[k].kind.Foreign?
  }

  /** The records observed in other hands. */
  ghost function ForeignIds(obs: seq<Observation>): set<U32> {
    set k | 0 <= k < |obs| && obs[k].kind.Foreign? :: obs[k].id
  }

  lemma ForeignAre(obs: seq<Observation>, inspected: map<U32, ObservationKind>, id: U32)
    requires Inspects(obs, |obs|, inspected)
    ensures id in ForeignIds(obs) <==> id in inspected && inspected[id].Foreign?
  {
    if id in inspected {
      assert Named(obs[..|obs|], id);
      var k :| 0 <= k < |obs| && obs[..|obs|][k].id == id;
      assert obs[k].id == id && inspected[obs[k].id] == obs[k].kind;
    }
  }

  lemma ConflictSeen(obs: seq<Observation>, inspected: map<U32, ObservationKind>)
    requires Inspects(obs, |obs|, inspected)
    ensures ForeignOf(inspected) == ForeignIds(obs) && (SeesConflict(obs) <==> ForeignIds(obs) != {})
  {
    forall id: U32 ensures id in ForeignIds(obs) <==> id in ForeignOf(inspected) {
      ForeignAre(obs, inspected, id);
    }
    if SeesConflict(obs) {
      var k :| 0 <= k < |obs| && obs[k].kind.Foreign?;
      assert obs[k].id in ForeignIds(obs);
    }
  }

  /** No removal was even attempted. */
  ghost predicate Untouched(events: seq<Event>) {
    forall e :: e in events ==> e.Restarted? || e.Inspected? || e.DiskWrote?
  }

  /** The adapter was prepared from this journal. */
  ghost predicate PreparedFrom(adapter: PreparedHostRecoveryAdapter, j: Journal) {
    j.session == adapter.session && j.generation == adapter.generation && Live(j.operations) == adapter.live
  }

  /** How a recovery ends that finds something in other hands: the conflict is on disk with
      the records as they were, or a write failed. */
  ghost predicate Conflicted(durable: DurableHostJournal, j: Journal, ids: set<U32>, r: Result<RunOutcome, RunError>)
    reads durable
  {
    && durable.disk.Some? && durable.disk.value.operations == j.operations
    && if r.Ok? then r.value == Refused(ResourceConflict(ids)) && Poisoned(durable, j) else r.error.JournalFailed?
  }

  /** When every write works, the script of convergences decides the outcome of the one
      plan that these observations give. */
  ghost predicate FollowsScript(j: Journal, obs: seq<Observation>, outcomes: seq<Convergence>, r: Result<RunOutcome, RunError>) {
    exists inspected, steps :: Inspects(obs, |obs|, inspected) && IsPlan(j, inspected, steps) && r == Foretold(outcomes, steps, 0)
  }

  /** A late conflict is refused, an operational failure is reported as one, and neither
      passes for the other or for a success, nor lets the journal go. */
  ghost predicate Distinguishes(events: seq<Event>, disk: Option<Journal>, r: Result<RunOutcome, RunError>) {
    && (SomeFailed(events, true) || SomeFailed(events, false) ==> disk.Some?)
    && (SomeFailed(events, true) ==> (r.Ok? && r.value.Refused? && r.value.refusal.ResourceConflict?) || (r.Err? && r.error.JournalFailed?))
    && (SomeFailed(events, false) <==> r.Err? && r.error.RemovalFailed?)
  }

  lemma ToldDistinguishes(events: seq<Event>, disk: Option<Journal>, r: Result<RunOutcome, RunError>)
    requires Failures(events) != [] ==> disk.Some?
    requires Told(Failures(events), r) && (r.Ok? && r.value.Refused? ==> r.value.refusal.ResourceConflict?)
    requires r.Err? ==> r.error.JournalFailed? || r.error.RemovalFailed?
    ensures Distinguishes(events, disk, r)
  {
    FailuresAre(events, true);
    FailuresAre(events, false);
  }

  /** `recover_host_state`. */
  method RecoverHostState(durable: DurableHostJournal, owner: Owner, adapter: PreparedHostRecoveryAdapter) returns (r: Result<RunOutcome, RunError>)
    requires durable.Valid() && durable.Synced() && durable.log == adapter.log && adapter.Valid()
    modifies durable, adapter, durable.log
    ensures old(durable.log.events) <= durable.log.events
    ensures durable.disk == DiskAfter(old(durable.journal), durable.log.events[|old(durable.log.events)|..])
    ensures Near(durable.disk, old(durable.journal), MAX_OPERATIONS + 1, SeesConflict(adapter.observations) || Conflicts in old(adapter.outcomes))
    ensures Disciplined(old(durable.journal), durable.log.events[|old(durable.log.events)|..])
    ensures Distinguishes(durable.log.events[|old(durable.log.events)|..], durable.disk, r)
    ensures owner.OwnerActive? ==> r == Ok(Leave)
    ensures owner.Ambiguous? ==> r == Ok(Refused(AmbiguousOwner))
    ensures owner.Stale? && old(durable.journal).phase.Conflict? ==> r == Ok(Refused(JournalAlreadyInConflict))
    ensures !owner.Stale? || old(durable.journal).phase.Conflict? || SeesConflict(adapter.observations) ==>
              Untouched(durable.log.events[|old(durable.log.events)|..])
    ensures r.Ok? && r.value.Refused? && r.value.refusal.ResourceConflict? ==> durable.Synced() && durable.journal.phase.Conflict?
    ensures r.Ok? && r.value.Recovered? ==> durable.disk == None
    ensures r.Err? && r.error.RemovalFailed? ==>
              durable.Valid() && durable.Synced() && durable.journal.phase.Cleaning? && SameRecords(old(durable.journal), durable.journal) && LiveId(durable.journal, r.error.id)
    ensures owner.Stale? && !old(durable.journal).phase.Conflict? ==> Recovers(durable, adapter, old(durable.journal), r)
    ensures (owner.Stale? && !old(durable.journal).phase.Conflict? && PreparedFrom(adapter, old(durable.journal)) && SeesConflict(adapter.observations) &&
             old(Faultless(durable, 0))) ==> r.Ok?
    ensures (owner.Stale? && !old(durable.journal).phase.Conflict? && PreparedFrom(adapter, old(durable.journal)) && !SeesConflict(adapter.observations) &&
             old(Faultless(durable, MAX_OPERATIONS + 1))) ==> FollowsScript(old(durable.journal), adapter.observations, old(adapter.outcomes), r)
    ensures (owner.Stale? && !old(durable.journal).phase.Conflict? && PreparedFrom(adapter, old(durable.journal)) && !SeesConflict(adapter.observations) &&
             old(Undisturbed(durable, adapter, MAX_OPERATIONS + 1))) ==> r.Ok? && r.value.Recovered?
  {
    ghost var n := |durable.log.events|;
    if owner.OwnerActive? { return Ok(Leave); }
    if owner.Ambiguous? { return Ok(Refused(AmbiguousOwner)); }
    if durable.journal.phase.Conflict? { return Ok(Refused(JournalAlreadyInConflict)); }
    var observed := adapter.InspectAll(durable.journal);
    if observed.Err? { return Err(InspectionFailed); }
    assert durable.log.events[n..] == [Inspected];
    r := ActOn(durable, adapter, observed.value, n);
  }

  /** What becomes of a stale journal `j` that is not in conflict. */
  ghost predicate Recovers(durable: DurableHostJournal, adapter: PreparedHostRecoveryAdapter, j: Journal, r: Result<RunOutcome, RunError>)
    reads durable
  {
    if !PreparedFrom(adapter, j) then r == Err(InspectionFailed) && durable.disk == Some(j)
    else if SeesConflict(adapter.observations) then Conflicted(durable, j, ForeignIds(adapter.observations), r)
    else Concluded(durable, j, r)
  }

  lemma InspectionOf(j: Journal, obs: seq<Observation>, d: Decision) returns (inspected: map<U32, ObservationKind>)
    requires exists inspected :: Inspects(obs, |obs|, inspected) && Decided(j, inspected, d)
    ensures Inspects(obs, |obs|, inspected)
    ensures if SeesConflict(obs) then d == Refuse(ResourceConflict(ForeignIds(obs))) else d.Execute? && IsPlan(j, inspected, d.steps)
  {
    inspected :| Inspects(obs, |obs|, inspected) && Decided(j, inspected, d);
    ConflictSeen(obs, inspected);
  }

  /** An adapter's own observations are refused for a conflict or give a plan. */
  method DecideFor(j: Journal, live: seq<(U32, Resource)>, obs: seq<Observation>, ghost groups: seq<Group>)
    returns (decision: Decision, ghost inspected: map<U32, ObservationKind>)
    requires ValidJournal(j) && !j.phase.Conflict? && live == Live(j.operations) && |obs| == |live|
    requires forall k :: 0 <= k < |live| ==> obs[k].id == live[k].0 && Recognizers(groups, live[k].1) == 1
    ensures if SeesConflict(obs) then decision == Refuse(ResourceConflict(ForeignIds(obs)))
            else decision.Execute? && Inspects(obs, |obs|, inspected) && Planned(j, inspected, decision.steps, groups)
  {
    PreparedComplete(j, live, obs);
    var r := Decide(j, Stale, obs);
    assert r.Ok?;
    decision := r.value;
    inspected := InspectionOf(j, obs, decision);
    if decision.Execute? { PlannedFor(j, live, obs, inspected, decision.steps, groups); }
  }

  lemma InspectedFine(j: Journal)
    ensures Disciplined(j, [Inspected]) && DiskAfter(j, [Inspected]) == Some(j) && Failures([Inspected]) == []
  {
    DisciplinedNext(j, [], Inspected);
    DiskNext(j, [], Inspected);
    FailuresNext([], Inspected);
    assert [] + [Inspected] == [Inspected];
  }

  /** Planning and acting on a complete inspection. */
  method ActOn(durable: DurableHostJournal, adapter: PreparedHostRecoveryAdapter, obs: seq<Observation>, ghost n: nat) returns (r: Result<RunOutcome, RunError>)
    requires durable.Valid() && durable.Synced() && !durable.journal.phase.Conflict? && durable.log == adapter.log && adapter.Valid()
    requires adapter.inspectionComplete && obs == adapter.observations && Live(durable.journal.operations) == adapter.live
    requires n <= |durable.log.events| && durable.log.events[n..] == [Inspected]
    modifies durable, adapter`outcomes, durable.log
    ensures n <= |durable.log.events| && old(durable.log.events)[..n] == durable.log.events[..n]
    ensures Disciplined(old(durable.journal), durable.log.events[n..]) && durable.disk == DiskAfter(old(durable.journal), durable.log.events[n..])
    ensures Near(durable.disk, old(durable.journal), MAX_OPERATIONS + 1, SeesConflict(obs) || Conflicts in old(adapter.outcomes))
    ensures Distinguishes(durable.log.events[n..], durable.disk, r)
    ensures SeesConflict(obs) ==> Untouched(durable.log.events[n..])
    ensures if SeesConflict(obs) then Conflicted(durable, old(durable.journal), ForeignIds(obs), r) else Concluded(durable, old(durable.journal), r)
    ensures SeesConflict(obs) && old(Faultless(durable, 0)) ==> r.Ok?
    ensures !SeesConflict(obs) && old(Faultless(durable, MAX_OPERATIONS + 1)) ==> FollowsScript(old(durable.journal), obs, old(adapter.outcomes), r)
    ensures !SeesConflict(obs) && old(Undisturbed(durable, adapter, MAX_OPERATIONS + 1)) ==> r.Ok? && r.value.Recovered?
  {
    ghost var j0 := durable.journal;
    var decision, inspected := DecideFor(durable.journal, adapter.live, obs, adapter.groups);
    InspectedFine(j0);
    if decision.Refuse? {
      var refused := RefuseConflict(durable, [Inspected], n);
      r := if refused.Ok? then Ok(Refused(decision.refusal)) else Err(JournalFailed(refused.error));
      FailuresAre(durable.log.events[n..], true);
      FailuresAre(durable.log.events[n..], false);
    } else {
      r := ExecutePlan(durable, adapter, j0, inspected, decision.steps, n);
      ToldDistinguishes(durable.log.events[n..], durable.disk, r);
      ForetoldWell(decision.steps, 0);
    }
  }

  /** A conflict is made durable before it is reported. */
  method RefuseConflict(durable: DurableHostJournal, ghost past: seq<Event>, ghost n: nat) returns (r: Result<(), JournalError>)
    requires durable.Valid() && durable.Synced() && !durable.journal.phase.Conflict? && Untouched(past) && Failures(past) == []
    requires n <= |durable.log.events| && durable.log.events[n..] == past && Disciplined(durable.journal, past) && DiskAfter(durable.journal, past) == durable.disk
    modifies durable, durable.log
    ensures n <= |durable.log.events| && old(durable.log.events)[..n] == durable.log.events[..n]
    ensures Disciplined(old(durable.journal), durable.log.events[n..]) && durable.disk == DiskAfter(old(durable.journal), durable.log.events[n..])
    ensures Near(durable.disk, old(durable.journal), 1, true) && durable.disk.Some? && durable.disk.value.operations == old(durable.journal).operations
    ensures Untouched(durable.log.events[n..]) && Failures(durable.log.events[n..]) == []
    ensures r.Ok? ==> Poisoned(durable, old(durable.journal))
    ensures old(Faultless(durable, 0)) ==> r.Ok?
  {
    ghost var next := Successor(durable.journal, Conflict, durable.journal.operations);
    DisciplinedNext(durable.journal, past, DiskWrote(next));
    DiskNext(durable.journal, past, DiskWrote(next));
    FailuresNext(past, DiskWrote(next));
    Suffix(durable.log.events, n, DiskWrote(next));
    r := durable.MarkConflict();
  }

  /** How a recovery that was not refused at inspection ends: without a journal, with a
      conflict on disk, or with a failure; one that can be retried keeps the records. */
  ghost predicate Concluded(durable: DurableHostJournal, j0: Journal, r: Result<RunOutcome, RunError>)
    reads durable
  {
    match r
    case Ok(outcome) =>
      if outcome.Recovered? then durable.disk == None
      else outcome.Refused? && outcome.refusal.ResourceConflict? && durable.Synced() && durable.journal.phase.Conflict? && SameRecords(j0, durable.journal)
    case Err(e) =>
      e.JournalFailed? ||
      (e.RemovalFailed? && durable.Valid() && durable.Synced() && durable.journal.phase.Cleaning? && SameRecords(j0, durable.journal) && LiveId(durable.journal, e.id))
  }

  method ExecutePlan(durable: DurableHostJournal, adapter: PreparedHostRecoveryAdapter, ghost j0: Journal, ghost inspected: map<U32, ObservationKind>,
                     steps: seq<RecoveryStep>, ghost n: nat)
    returns (r: Result<RunOutcome, RunError>)
    requires durable.Valid() && durable.Synced() && durable.journal == j0 && durable.log == adapter.log && adapter.inspectionComplete
    requires Planned(j0, inspected, steps, adapter.groups)
    requires n <= |durable.log.events| && durable.log.events[n..] == [Inspected] && Disciplined(j0, [Inspected]) && DiskAfter(j0, [Inspected]) == Some(j0)
    modifies durable, adapter`outcomes, durable.log
    ensures n <= |durable.log.events| && old(durable.log.events)[..n] == durable.log.events[..n]
    ensures Disciplined(j0, durable.log.events[n..]) && durable.disk == DiskAfter(j0, durable.log.events[n..])
    ensures Near(durable.disk, j0, MAX_OPERATIONS + 1, Conflicts in old(adapter.outcomes))
    ensures Told(Failures(durable.log.events[n..]), r) && Concluded(durable, j0, r) && (Failures(durable.log.events[n..]) != [] ==> durable.disk.Some?)
    ensures !j0.phase.Conflict? && old(Faultless(durable, MAX_OPERATIONS + 1)) ==> r == Foretold(old(adapter.outcomes), steps, 0)
  {
    BeginFine(j0, Successor(j0, Cleaning, j0.operations));
    Suffix(durable.log.events, n, DiskWrote(Successor(j0, Cleaning, j0.operations)));
    var cleaning := durable.BeginCleaning();
    if cleaning.Err? { return Err(JournalFailed(cleaning.error)); }
    StandingStart(j0, inspected, steps, durable.journal, durable.log.events[n..]);
    StepCount(j0, inspected, steps);
    ghost var reached;
    r, reached := RunPlan(durable, adapter, j0, inspected, steps, n);
    if reached < |steps| { StepLive(j0, durable.journal, steps, reached); }
  }

  lemma BeginFine(j0: Journal, next: Journal)
    requires next == Successor(j0, Cleaning, j0.operations)
    ensures var now := [Inspected] + [DiskWrote(next)];
            Disciplined(j0, now) && DiskAfter(j0, now) == Some(next) && InspectedSince(now) && Failures(now) == []
    ensures InspectedSince([Inspected]) && Failures([Inspected]) == []
  {
    InspectedFine(j0);
    InspectedNext([], Inspected);
    assert [] + [Inspected] == [Inspected];
    DisciplinedNext(j0, [Inspected], DiskWrote(next));
    DiskNext(j0, [Inspected], DiskWrote(next));
    InspectedNext([Inspected], DiskWrote(next));
    FailuresNext([Inspected], DiskWrote(next));
  }

  lemma StepLive(j0: Journal, j: Journal, steps: seq<RecoveryStep>, k: nat)
    requires k < |steps|
    ensures Resumable(j0, j, steps, k) ==> LiveId(j, steps[k].id)
  {
  }

  /** No more steps than records. */
  lemma StepCount(j: Journal, inspected: map<U32, ObservationKind>, steps: seq<RecoveryStep>)
    requires ValidJournal(j) && IsPlan(j, inspected, steps)
    ensures |steps| <= MAX_OPERATIONS
  {
    StepsDistinct(j, inspected, steps);
    var ids := seq(|steps|, i requires 0 <= i < |steps| => steps[i].id as nat);
    DistinctBounded(ids, |j.operations|);
  }

  lemma {:induction false} DistinctBounded(ids: seq<nat>, n: nat)
    requires forall i :: 0 <= i < |ids| ==> 1 <= ids[i] <= n
    requires forall i, j :: 0 <= i < j < |ids| ==> ids[i] != ids[j]
    ensures |ids| <= n
  {
    if ids != [] {
      assert 1 <= ids[0] <= n;
      if m :| 0 <= m < |ids| && ids[m] == n {
        var rest := ids[..m] + ids[m + 1..];
        assert forall i :: 0 <= i < |rest| ==> rest[i] == if i < m then ids[i] else ids[i + 1];
        DistinctBounded(rest, n - 1);
      } else {
        DistinctBounded(ids, n - 1);
      }
    }
  }
}
