/** Start-up recovery across restarts: every start loads the journal that is on disk,
    prepares an adapter for it and recovers; any start may fail or be cut short. */
module StartupRecovery {
  import opened Prelude
  import opened HostJournal
  import opened HostRecovery

  /** What preparing the groups for a journal gives: an operational failure, contested
      ownership, or the groups. */
  datatype Preparation = Unprepared | Contested | Ready(groups: seq<Group>)

  /** One start: the evidence about the owner, the groups found for a journal, and what
      goes wrong on disk and on the host. */
  datatype Start = Start(owner: Owner, prepare: Journal -> Preparation, faults: seq<DiskFault>, outcomes: seq<Convergence>)

  // ------------------------------------------------------------------- joining two runs

  lemma {:induction false} DiskJoins(j0: Journal, before: seq<Event>, j1: Journal, after: seq<Event>)
    requires DiskAfter(j0, before) == Some(j1)
    ensures DiskAfter(j0, before + after) == DiskAfter(j1, after)
  {
    if after == [] {
      assert before + after == before;
    } else {
      var init, e := after[..|after| - 1], after[|after| - 1];
      DiskJoins(j0, before, j1, init);
      DiskNext(j1, init, e);
      DiskNext(j0, before + init, e);
      assert init + [e] == after && before + init + [e] == before + after;
    }
  }

  lemma DisciplinedPrefix(j0: Journal, past: seq<Event>)
    requires Disciplined(j0, past) && past != []
    ensures Disciplined(j0, past[..|past| - 1]) && Fine(j0, past[..|past| - 1], past[|past| - 1])
  {
    var init := past[..|past| - 1];
    forall i | 0 <= i < |init| ensures Fine(j0, init[..i], init[i]) {
      assert init[..i] == past[..i] && init[i] == past[i];
    }
  }

  /** What is on disk differs from the start in converged records only. */
  lemma {:induction false} DiskTracks(j0: Journal, past: seq<Event>)
    requires Disciplined(j0, past) && DiskAfter(j0, past).Some?
    ensures Tracks(j0, DiskAfter(j0, past).value, past)
  {
    if past != [] {
      var init, e := past[..|past| - 1], past[|past| - 1];
      DisciplinedPrefix(j0, past);
      assert past == init + [e];
      DiskNext(j0, init, e);
      if e.DiskWrote? {
        TracksMore(j0, e.journal, init, e);
      } else {
        DiskTracks(j0, init);
        TracksMore(j0, DiskAfter(j0, init).value, init, e);
      }
    }
  }

  lemma {:induction false} InspectedJoins(before: seq<Event>, past: seq<Event>)
    requires InspectedSince(past)
    ensures InspectedSince(before + past)
  {
    var all := before + past;
    assert all[|all| - 1] == past[|past| - 1] && all[..|all| - 1] == before + past[..|past| - 1];
    if !past[|past| - 1].Inspected? { InspectedJoins(before, past[..|past| - 1]); }
  }

  lemma TracksJoin(j0: Journal, before: seq<Event>, j1: Journal, past: seq<Event>, j: Journal)
    requires Tracks(j0, j1, before) && Tracks(j1, j, past)
    ensures Tracks(j0, j, before + past)
  {
  }

  lemma ConvergedJoin(j0: Journal, before: seq<Event>, j1: Journal, past: seq<Event>, k: nat)
    requires Tracks(j0, j1, before) && k < |j0.operations| && !j0.operations[k].state.Removed?
    requires !j1.operations[k].state.Removed? ==> Converged(j1.operations[k].resource) in past
    ensures Converged(j0.operations[k].resource) in before + past
  {
  }

  lemma FineJoins(j0: Journal, before: seq<Event>, j1: Journal, past: seq<Event>, e: Event)
    requires DiskAfter(j0, before) == Some(j1) && Tracks(j0, j1, before) && Fine(j1, past, e)
    ensures Fine(j0, before + past, e)
  {
    DiskJoins(j0, before, j1, past);
    if InspectedSince(past) { InspectedJoins(before, past); }
    match e
    case Converged(r) =>
      forall k | 0 <= k < |j0.operations| && !j0.operations[k].state.Removed? && j0.operations[k].resource.RemovalRank() < r.RemovalRank()
        ensures Converged(j0.operations[k].resource) in before + past {
        ConvergedJoin(j0, before, j1, past, k);
      }
    case DiskWrote(j) => TracksJoin(j0, before, j1, past, j);
    case DiskRemoved =>
      forall k | 0 <= k < |j0.operations| && !j0.operations[k].state.Removed? ensures Converged(j0.operations[k].resource) in before + past {
        ConvergedJoin(j0, before, j1, past, k);
      }
    case _ =>
  }

  /** A disciplined run from the journal another one left keeps the discipline of the first. */
  lemma DisciplineJoins(j0: Journal, before: seq<Event>, j1: Journal, after: seq<Event>)
    requires Disciplined(j0, before) && DiskAfter(j0, before) == Some(j1) && Disciplined(j1, after)
    ensures Disciplined(j0, before + after) && DiskAfter(j0, before + after) == DiskAfter(j1, after)
  {
    DiskJoins(j0, before, j1, after);
    DiskTracks(j0, before);
    var all := before + after;
    forall i | 0 <= i < |all| ensures Fine(j0, all[..i], all[i]) {
      if i < |before| {
        assert all[..i] == before[..i] && all[i] == before[i];
      } else {
        var m := i - |before|;
        assert all[..i] == before + after[..m] && all[i] == after[m];
        FineJoins(j0, before, j1, after[..m], after[m]);
      }
    }
  }

  /** Every journal a recovery leaves can be loaded again. */
  lemma LeftValid(j0: Journal, past: seq<Event>)
    requires ValidJournal(j0) && Disciplined(j0, past) && DiskAfter(j0, past).Some?
    ensures ValidJournal(DiskAfter(j0, past).value)
  {
    DiskTracks(j0, past);
    LeftPhase(j0, past);
  }

  lemma {:induction false} LeftPhase(j0: Journal, past: seq<Event>)
    requires ValidJournal(j0) && Disciplined(j0, past) && DiskAfter(j0, past).Some?
    ensures var j := DiskAfter(j0, past).value; j == j0 || (1 <= j.generation && !j.phase.Active?)
  {
    if past != [] {
      var init, e := past[..|past| - 1], past[|past| - 1];
      DisciplinedPrefix(j0, past);
      assert past == init + [e];
      DiskNext(j0, init, e);
      if !e.DiskWrote? { LeftPhase(j0, init); }
    }
  }

  // -------------------------------------------------------------------------- one start

  /** Every live record is owned by one group, and no group calls it foreign. */
  ghost predicate Owned(j: Journal, groups: seq<Group>) {
    forall k :: 0 <= k < |j.operations| && !j.operations[k].state.Removed? ==> OwnedResource(groups, j.operations[k].resource)
  }

  ghost predicate OwnedResource(groups: seq<Group>, resource: Resource) {
    Recognizers(groups, resource) == 1 && forall i :: 0 <= i < |groups| && resource in groups[i] ==> !groups[i][resource].Foreign?
  }

  /** Nobody else lays claim to what the journal records. */
  ghost predicate Peaceful(j: Journal, s: Start) {
    !s.prepare(j).Contested? && (s.prepare(j).Ready? ==> Owned(j, s.prepare(j).groups)) && Conflicts !in s.outcomes
  }

  /** Nothing goes wrong, and the generation counter has room for one recovery. */
  ghost predicate Smooth(j: Journal, s: Start) {
    s.owner.Stale? && s.prepare(j).Ready? && s.faults == [] && s.outcomes == [] && j.generation + MAX_OPERATIONS + 1 < U64_MAX
  }

  lemma OwnedLive(j: Journal, groups: seq<Group>, k: nat)
    requires ValidJournal(j) && Owned(j, groups) && k < |Live(j.operations)|
    ensures OwnedResource(groups, Live(j.operations)[k].1)
  {
    LiveSound(j.operations, k);
  }

  /** The disk holds a legitimate successor of `j` or nothing. */
  ghost predicate Leaves(j: Journal, events: seq<Event>, disk: Option<Journal>) {
    Disciplined(j, events) && disk == DiskAfter(j, events)
  }

  lemma {:induction false} RecognizedSome(groups: seq<Group>, n: nat, i: nat, resource: Resource)
    requires i < n <= |groups| && resource in groups[i]
    ensures Recognizers(groups[..n], resource) >= 1
  {
    assert groups[..n][..n - 1] == groups[..n - 1] && groups[..n][n - 1] == groups[n - 1];
    if i < n - 1 { RecognizedSome(groups, n - 1, i, resource); }
  }

  lemma RecognizedOnce(groups: seq<Group>, i: nat, k: nat, resource: Resource)
    requires i < k < |groups| && resource in groups[i] && resource in groups[k]
    ensures Recognizers(groups, resource) >= 2
  {
    RecognizedSome(groups, k, i, resource);
    assert groups[..k + 1][..k] == groups[..k];
    RecognizersGrow(groups, k + 1, resource);
  }

  /** Where an adapter could be prepared, what is not owned was seen in other hands. */
  lemma UnownedSeen(j: Journal, groups: seq<Group>, obs: seq<Observation>)
    requires ValidJournal(j) && !Owned(j, groups) && |obs| == |Live(j.operations)|
    requires forall k :: 0 <= k < |obs| ==> Recognizers(groups, Live(j.operations)[k].1) == 1 && SeenIn(groups, Live(j.operations)[k].1, obs[k].kind)
    ensures SeesConflict(obs)
  {
    var live := Live(j.operations);
    var k :| 0 <= k < |j.operations| && !j.operations[k].state.Removed? && !OwnedResource(groups, j.operations[k].resource);
    var resource := j.operations[k].resource;
    LiveCovers(j.operations, k);
    var m :| 0 <= m < |live| && live[m] == (k + 1, resource);
    var i :| 0 <= i < |groups| && resource in groups[i] && groups[i][resource].Foreign?;
    var own :| 0 <= own < |groups| && resource in groups[own] && groups[own][resource] == obs[m].kind;
    if i < own { RecognizedOnce(groups, i, own, resource); }
    if own < i { RecognizedOnce(groups, own, i, resource); }
  }

  /** Recovery with the groups found. */
  method RecoverWith(durable: DurableHostJournal, groups: seq<Group>, outcomes: seq<Convergence>)
    requires durable.Valid() && durable.Synced() && !durable.journal.phase.Conflict?
    modifies durable, durable.log
    ensures old(durable.log.events) <= durable.log.events
    ensures Leaves(old(durable.journal), durable.log.events[|old(durable.log.events)|..], durable.disk)
    ensures Near(durable.disk, old(durable.journal), MAX_OPERATIONS + 1, !Owned(old(durable.journal), groups) || Conflicts in outcomes)
    ensures (Owned(old(durable.journal), groups) && outcomes == [] && old(durable.faults) == [] &&
             old(durable.journal).generation + MAX_OPERATIONS + 1 < U64_MAX) ==> durable.disk == None
    ensures !Owned(old(durable.journal), groups) ==>
              Untouched(durable.log.events[|old(durable.log.events)|..]) && Kept(old(durable.journal), durable.disk, old(Faultless(durable, 0)))
    ensures SomeFailed(durable.log.events[|old(durable.log.events)|..], true) ==>
              durable.disk.Some? && (old(Faultless(durable, MAX_OPERATIONS + 1)) ==> durable.disk.value.phase.Conflict?)
  {
    ghost var j, n := durable.journal, |durable.log.events|;
    if Owned(j, groups) {
      forall k | 0 <= k < |Live(j.operations)| ensures OwnedResource(groups, Live(j.operations)[k].1) { OwnedLive(j, groups, k); }
    }
    var adapter := PrepareAdapter(durable.log, durable.journal, groups, outcomes);
    if adapter.Err? {
      assert durable.log.events[n..] == [];
      var refused := RefuseConflict(durable, [], n);
      assert durable.log.events[..n] == old(durable.log.events);
      FailuresAre(durable.log.events[n..], true);
      return;
    }
    if !Owned(j, groups) { UnownedSeen(j, groups, adapter.value.observations); }
    var outcome := RecoverHostState(durable, Stale, adapter.value);
  }

  /** The records are as they were, and marked as in conflict when the write works. */
  ghost predicate Kept(j: Journal, disk: Option<Journal>, works: bool) {
    disk.Some? && disk.value.operations == j.operations && (works ==> disk.value == Successor(j, Conflict, j.operations))
  }

  /** Somebody else lays claim to what the journal records: preparing says so, or a live
      record has not exactly one owner, or its owner calls it foreign. */
  ghost predicate Claimed(j: Journal, s: Start) {
    s.prepare(j).Contested? || (s.prepare(j).Ready? && !Owned(j, s.prepare(j).groups))
  }

  /** What a start makes of a stale journal `j` that is not in conflict. */
  ghost predicate Answered(j: Journal, s: Start, events: seq<Event>, after: Option<Journal>) {
    && Leaves(j, events, after) && Near(after, j, MAX_OPERATIONS + 1, !Peaceful(j, s))
    && (s.prepare(j).Unprepared? ==> after == Some(j))
    && (Peaceful(j, s) && Smooth(j, s) ==> after == None)
    && (Claimed(j, s) ==> Untouched(events) && Kept(j, after, s.faults == [] && j.generation < U64_MAX))
    && (SomeFailed(events, true) ==> after.Some? && (s.faults == [] && j.generation + MAX_OPERATIONS + 1 < U64_MAX ==> after.value.phase.Conflict?))
  }

  /** The part of a start that follows the decision to recover. */
  method Prepare(durable: DurableHostJournal, s: Start)
    requires durable.Valid() && durable.Synced() && !durable.journal.phase.Conflict? && s.owner.Stale? && durable.faults == s.faults
    modifies durable, durable.log
    ensures old(durable.log.events) <= durable.log.events
    ensures Answered(old(durable.journal), s, durable.log.events[|old(durable.log.events)|..], durable.disk)
  {
    ghost var n := |durable.log.events|;
    assert durable.log.events[n..] == [];
    var preparation := s.prepare(durable.journal);
    match preparation
    case Unprepared =>
    case Contested =>
      var refused := RefuseConflict(durable, [], n);
      assert durable.log.events[..n] == old(durable.log.events);
      FailuresAre(durable.log.events[n..], true);
    case Ready(groups) => RecoverWith(durable, groups, s.outcomes);
  }

  /** `recover_startup_host_state`: gives what is on disk afterwards. */
  method StartUp(log: EventLog, disk: Option<Journal>, s: Start) returns (after: Option<Journal>)
    requires disk.Some? ==> ValidJournal(disk.value)
    modifies log
    ensures old(log.events) <= log.events
    ensures disk.None? ==> after == None && log.events == old(log.events)
    ensures disk.Some? ==> Leaves(disk.value, log.events[|old(log.events)|..], after)
    ensures disk.Some? ==> |old(log.events)| < |log.events| && log.events[|old(log.events)|] == Restarted
    ensures disk.Some? && (disk.value.phase.Conflict? || !s.owner.Stale?) ==> after == disk
    ensures disk.Some? && !disk.value.phase.Conflict? && s.owner.Stale? ==> Answered(disk.value, s, log.events[|old(log.events)|..], after)
  {
    if disk.None? { return None; }
    var durable := new DurableHostJournal(log, disk.value, s.faults);
    ghost var n := |log.events|;
    log.Add(Restarted);
    RestartedFine(disk.value);
    assert log.events[n..] == [Restarted];
    if durable.journal.phase.Conflict? || !s.owner.Stale? { return disk; }
    Prepare(durable, s);
    RestartedJoins(disk.value, log.events[n + 1..]);
    assert log.events[n..] == [Restarted] + log.events[n + 1..];
    after := durable.disk;
  }

  lemma RestartedFine(j: Journal)
    ensures Disciplined(j, [Restarted]) && DiskAfter(j, [Restarted]) == Some(j) && Failures([Restarted]) == []
    ensures Untouched([Restarted]) && !SomeFailed([Restarted], true)
  {
    DisciplinedNext(j, [], Restarted);
    DiskNext(j, [], Restarted);
    FailuresNext([], Restarted);
    assert [] + [Restarted] == [Restarted];
  }

  /** A run is as disciplined after the start of its process as by itself. */
  lemma RestartedJoins(j: Journal, events: seq<Event>)
    requires Disciplined(j, events)
    ensures var all := [Restarted] + events;
            Disciplined(j, all) && DiskAfter(j, all) == DiskAfter(j, events) &&
            (SomeFailed(all, true) <==> SomeFailed(events, true)) && (Untouched(events) ==> Untouched(all))
  {
    RestartedFine(j);
    DisciplineJoins(j, [Restarted], j, events);
    var all := [Restarted] + events;
    assert forall e :: e in all <==> e == Restarted || e in events;
  }

  // ------------------------------------------------------------------------ any number

  /** The records of `j0`, some of them removed since. */
  ghost predicate Remnant(j0: Journal, j: Journal) {
    SameRecords(j0, j) &&
    forall k :: 0 <= k < |j.operations| ==> j.operations[k].state == j0.operations[k].state || j.operations[k].state.Removed?
  }

  /** Whatever the restarts before left of the records, this start meets no conflict. */
  ghost predicate PeacefulFrom(j0: Journal, s: Start) {
    forall j :: Remnant(j0, j) ==> Peaceful(j, s)
  }

  /** The last start is an undisturbed one. */
  ghost predicate SmoothFrom(j0: Journal, s: Start) {
    s.owner.Stale? && s.faults == [] && s.outcomes == [] && forall j :: Remnant(j0, j) ==> s.prepare(j).Ready?
  }

  /** Any number of starts that fail or are cut short anywhere, then one more. The whole
      history is as disciplined as a single recovery; with no conflict and an undisturbed
      last start nothing is left; a journal in conflict is never touched. */
  method StartUps(log: EventLog, j0: Journal, starts: seq<Start>, last: Start) returns (disk: Option<Journal>)
    requires ValidJournal(j0) && log.events == []
    modifies log
    ensures Leaves(j0, log.events, disk)
    ensures j0.phase.Conflict? ==> disk == Some(j0)
    ensures (!j0.phase.Conflict? && (forall i :: 0 <= i < |starts| ==> PeacefulFrom(j0, starts[i])) && PeacefulFrom(j0, last) && SmoothFrom(j0, last) &&
             j0.generation + (|starts| + 1) * (MAX_OPERATIONS + 1) < U64_MAX) ==> disk == None
  {
    ghost var peaceful := !j0.phase.Conflict? && forall i :: 0 <= i < |starts| ==> PeacefulFrom(j0, starts[i]);
    disk := Some(j0);
    for i := 0 to |starts|
      invariant Leaves(j0, log.events, disk) && (disk.Some? ==> ValidJournal(disk.value) && Remnant(j0, disk.value))
      invariant j0.phase.Conflict? ==> disk == Some(j0)
      invariant peaceful && disk.Some? ==> !disk.value.phase.Conflict? && disk.value.generation <= j0.generation + i * (MAX_OPERATIONS + 1)
    {
      disk := NextStart(log, j0, disk, starts[i]);
    }
    disk := NextStart(log, j0, disk, last);
  }

  method NextStart(log: EventLog, ghost j0: Journal, disk: Option<Journal>, s: Start) returns (after: Option<Journal>)
    requires ValidJournal(j0) && Leaves(j0, log.events, disk)
    requires disk.Some? ==> ValidJournal(disk.value) && Remnant(j0, disk.value)
    modifies log
    ensures Leaves(j0, log.events, after) && (after.Some? ==> ValidJournal(after.value) && Remnant(j0, after.value))
    ensures disk.None? ==> after == None
    ensures disk.Some? && disk.value.phase.Conflict? ==> after == disk
    ensures disk.Some? && PeacefulFrom(j0, s) ==> Near(after, disk.value, MAX_OPERATIONS + 1, false)
    ensures (disk.Some? && !disk.value.phase.Conflict? && PeacefulFrom(j0, s) && SmoothFrom(j0, s) &&
             disk.value.generation + MAX_OPERATIONS + 1 < U64_MAX) ==> after == None
  {
    ghost var before := log.events;
    after := StartUp(log, disk, s);
    if disk.Some? {
      assert log.events == before + log.events[|before|..];
      DisciplineJoins(j0, before, disk.value, log.events[|before|..]);
      if after.Some? {
        DiskTracks(j0, log.events);
        LeftValid(j0, log.events);
      }
    }
  }
}
