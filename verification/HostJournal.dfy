/** The durable host-state journal: records of owned resources, the write-ahead
    calls that change them, and a disk on which each call takes effect or fails. */
module HostJournal {
  import opened Prelude

  const MAX_OPERATIONS := 256

  datatype Phase = Preparing | Active | Cleaning | Conflict {
    predicate CanBecome(next: Phase) {
      this == next || (Preparing? && !next.Preparing?) || (Active? && !next.Active?) || (Cleaning? && next.Conflict?)
    }
  }

  datatype OpState = Planned | Applied | Removed

  datatype Purpose = SplitDefault | EndpointBypass | SshBypass

  /** Owned resources; `key` stands for the exact description of each. */
  datatype Resource =
    | Route(purpose: Purpose, key: nat)
    | Dns(key: nat)
    | Tun(key: nat)
    | Firewall(key: nat)
    | FirewallEndpoint(key: nat)
  {
    /** Order in which recovery removes: the firewall base goes last. */
    function RemovalRank(): nat {
      match this
      case Route(purpose, _) => if purpose.SplitDefault? then 0 else 2
      case Dns(_) => 1
      case Tun(_) => 3
      case FirewallEndpoint(_) => 4
      case Firewall(_) => 5
    }
  }

  datatype Record = Record(id: U32, state: OpState, resource: Resource)

  datatype Journal = Journal(session: nat, generation: U64, phase: Phase, operations: seq<Record>)

  /** A journal in use changes between its two phases or gives way to any; cleaning can only
      turn into a conflict, and a conflict is final. */
  lemma PhaseMoves(a: Phase, b: Phase)
    ensures a.CanBecome(b) <==> a == b || a in {Preparing, Active} || (a == Cleaning && b == Conflict)
  {
  }

  /** Identifiers are contiguous from one, a resource recurs only after its
      earlier record is removed, and an active journal has nothing in doubt. */
  predicate ValidJournal(j: Journal) {
    && 1 <= j.generation && |j.operations| <= MAX_OPERATIONS
    && (forall i :: 0 <= i < |j.operations| ==> j.operations[i].id == i + 1)
    && (forall a, b :: 0 <= a < b < |j.operations| && j.operations[a].resource == j.operations[b].resource ==> j.operations[a].state.Removed?)
    && (j.phase.Active? ==> forall i :: 0 <= i < |j.operations| ==> !j.operations[i].state.Planned?)
  }

  function WithState(ops: seq<Record>, id: U32, state: OpState): (r: seq<Record>)
    requires 1 <= id <= |ops|
    ensures |r| == |ops| && r[id - 1] == ops[id - 1].(state := state)
    ensures forall i :: 0 <= i < |ops| && i != id - 1 ==> r[i] == ops[i]
  {
    ops[id - 1 := ops[id - 1].(state := state)]
  }

  /** The next durable generation (the counter is checked before it is used). */
  function Successor(j: Journal, phase: Phase, operations: seq<Record>): Journal {
    j.(generation := SatAdd64(j.generation, 1), phase := phase, operations := operations)
  }

  /** Some live record names the resource. */
  ghost predicate HasLive(ops: seq<Record>, r: Resource) {
    exists i :: 0 <= i < |ops| && ops[i].resource == r && !ops[i].state.Removed?
  }

  lemma WithStateKeeps(ops: seq<Record>, id: U32, state: OpState, r: Resource)
    requires 1 <= id <= |ops| && HasLive(ops, r) && (!state.Removed? || ops[id - 1].resource != r)
    ensures HasLive(WithState(ops, id, state), r)
  {
    var i :| 0 <= i < |ops| && ops[i].resource == r && !ops[i].state.Removed?;
    assert WithState(ops, id, state)[i].resource == r;
  }

  lemma AppendKeeps(ops: seq<Record>, record: Record, r: Resource)
    requires HasLive(ops, r) || (record.resource == r && !record.state.Removed?)
    ensures HasLive(ops + [record], r)
  {
    var next := ops + [record];
    if HasLive(ops, r) {
      var i :| 0 <= i < |ops| && ops[i].resource == r && !ops[i].state.Removed?;
      assert next[i] == ops[i];
    } else {
      assert next[|ops|] == record;
    }
  }

  /** The resources with a live record. */
  ghost function LiveSet(ops: seq<Record>): set<Resource> {
    set i | 0 <= i < |ops| && !ops[i].state.Removed? :: ops[i].resource
  }

  /** Removing the one live record of a resource takes exactly that resource away. */
  lemma RemovedLive(ops: seq<Record>, id: U32)
    requires forall a, b :: 0 <= a < b < |ops| && ops[a].resource == ops[b].resource ==> ops[a].state.Removed?
    requires 1 <= id <= |ops| && !ops[id - 1].state.Removed?
    ensures ops[id - 1].resource in LiveSet(ops)
    ensures LiveSet(WithState(ops, id, Removed)) == LiveSet(ops) - {ops[id - 1].resource}
    ensures |LiveSet(WithState(ops, id, Removed))| == |LiveSet(ops)| - 1
  {
    var after := WithState(ops, id, Removed);
    forall x | x in LiveSet(after) ensures x in LiveSet(ops) && x != ops[id - 1].resource {
      var i :| 0 <= i < |after| && !after[i].state.Removed? && after[i].resource == x;
      assert ops[i] == after[i];
    }
    forall x | x in LiveSet(ops) && x != ops[id - 1].resource ensures x in LiveSet(after) {
      var i :| 0 <= i < |ops| && !ops[i].state.Removed? && ops[i].resource == x;
      assert after[i] == ops[i];
    }
    assert LiveSet(after) == LiveSet(ops) - {ops[id - 1].resource};
  }

  lemma {:induction false} LiveFew(ops: seq<Record>)
    ensures |LiveSet(ops)| <= |ops|
  {
    if ops != [] {
      var init, last := ops[..|ops| - 1], ops[|ops| - 1];
      LiveFew(init);
      forall x | x in LiveSet(ops) ensures x in LiveSet(init) + {last.resource} {
        var i :| 0 <= i < |ops| && !ops[i].state.Removed? && ops[i].resource == x;
        assert i < |init| ==> init[i] == ops[i];
      }
      var more := LiveSet(init) + {last.resource};
      assert more == LiveSet(ops) + (more - LiveSet(ops));
    } else {
      assert LiveSet(ops) == {};
    }
  }

  /** Without planned records every live one is applied. */
  lemma LiveApplied(ops: seq<Record>, x: Resource)
    requires x in LiveSet(ops) && !InDoubt(ops, x)
    ensures HasApplied(ops, x)
  {
    var i :| 0 <= i < |ops| && !ops[i].state.Removed? && ops[i].resource == x;
    assert ops[i].state.Applied?;
  }

  /** A record of the resource is planned and not acknowledged. */
  ghost predicate InDoubt(ops: seq<Record>, r: Resource) {
    exists i :: 0 <= i < |ops| && ops[i].resource == r && ops[i].state.Planned?
  }

  /** Some applied records were removed, and nothing else changed. */
  ghost predicate Fewer(before: seq<Record>, after: seq<Record>) {
    |after| == |before| &&
    forall i :: 0 <= i < |before| ==> after[i] == before[i] || (before[i].state.Applied? && after[i] == before[i].(state := Removed))
  }

  lemma FewerDoubts(before: seq<Record>, after: seq<Record>, r: Resource)
    requires Fewer(before, after) && InDoubt(before, r)
    ensures InDoubt(after, r)
  {
    var i :| 0 <= i < |before| && before[i].resource == r && before[i].state.Planned?;
    assert after[i] == before[i];
  }

  /** No planned record was resolved. */
  ghost predicate DoubtsStay(before: seq<Record>, after: seq<Record>) {
    forall r :: InDoubt(before, r) ==> InDoubt(after, r)
  }

  lemma RemovedDoubts(ops: seq<Record>, id: U32)
    requires 1 <= id <= |ops| && ops[id - 1].state.Applied?
    ensures DoubtsStay(ops, WithState(ops, id, Removed)) && Fewer(ops, WithState(ops, id, Removed))
  {
    forall r | InDoubt(ops, r) ensures InDoubt(WithState(ops, id, Removed), r) {
      var i :| 0 <= i < |ops| && ops[i].resource == r && ops[i].state.Planned?;
      assert WithState(ops, id, Removed)[i] == ops[i];
    }
  }

  lemma AppendDoubts(ops: seq<Record>, record: Record)
    ensures DoubtsStay(ops, ops + [record])
    ensures record.state.Planned? ==> InDoubt(ops + [record], record.resource)
  {
    var next := ops + [record];
    forall r | InDoubt(ops, r) ensures InDoubt(next, r) {
      var i :| 0 <= i < |ops| && ops[i].resource == r && ops[i].state.Planned?;
      assert next[i] == ops[i];
    }
    assert next[|ops|] == record;
  }

  /** Acknowledging the record just appended. */
  lemma AppliedLast(ops: seq<Record>, id: U32, r: Resource)
    requires id == |ops| + 1
    ensures WithState(ops + [Record(id, Planned, r)], id, Applied) == ops + [Record(id, Applied, r)]
  {
  }

  lemma AppliedDoubts(ops: seq<Record>, id: U32, r: Resource)
    requires 1 <= id <= |ops| && InDoubt(ops, r) && ops[id - 1].resource != r
    ensures InDoubt(WithState(ops, id, Applied), r)
  {
    var i :| 0 <= i < |ops| && ops[i].resource == r && ops[i].state.Planned?;
    assert WithState(ops, id, Applied)[i] == ops[i];
  }

  /** What survived a removal was there before. */
  lemma FewerLive(before: seq<Record>, after: seq<Record>, r: Resource)
    requires Fewer(before, after) && HasLive(after, r)
    ensures HasLive(before, r)
  {
    var i :| 0 <= i < |after| && after[i].resource == r && !after[i].state.Removed?;
    assert before[i] == after[i];
  }

  /** The resource can be recorded: there is room, and no live record names it. */
  ghost predicate Addable(j: Journal, r: Resource) {
    |j.operations| < MAX_OPERATIONS && !HasLive(j.operations, r) && j.generation + 1 < U64_MAX
  }

  /** The resource can be removed: an applied record names it. */
  ghost predicate HasApplied(ops: seq<Record>, r: Resource) {
    exists i :: 0 <= i < |ops| && ops[i].resource == r && ops[i].state.Applied?
  }

  datatype JournalError = StoreFailed | WrongPhase | WrongState | Missing | GenerationOverflow | NotFullyRemoved | Capacity

  datatype DiskFault = Works | FailsBefore | FailsAfter

  /** The next `n` calls work. */
  predicate Clear(faults: seq<DiskFault>, n: nat) {
    forall i :: 0 <= i < |faults| && i < n ==> faults[i].Works?
  }

  function Rest(faults: seq<DiskFault>, n: nat): seq<DiskFault> {
    if n <= |faults| then faults[n..] else []
  }

  lemma RestRest(faults: seq<DiskFault>, a: nat, b: nat)
    ensures Rest(Rest(faults, a), b) == Rest(faults, a + b)
    ensures Clear(faults, a + b) ==> Clear(faults, a) && Clear(Rest(faults, a), b)
  {
  }

  predicate FailsNext(faults: seq<DiskFault>) {
    faults != [] && faults[0].FailsBefore?
  }

  /** What happens on the machine, in order: each entry is a point at which the
      process may end. */
  datatype Event =
    | DiskWrote(journal: Journal)
    | DiskRemoved
    | Restarted
    | Inspected
    | Converged(resource: Resource)
    | ConvergeFailed(resource: Resource, conflict: bool)
    | HostRemoved(resource: Resource)
    | TunClosed
    | TunSeenAbsent
    | FirewallReleased(present: set<Resource>)

  /** Later events were only appended, and none of them released the firewall. */
  ghost predicate Extends(before: seq<Event>, after: seq<Event>) {
    |before| <= |after| && (forall i :: 0 <= i < |before| ==> after[i] == before[i]) &&
    (forall i :: |before| <= i < |after| ==> !after[i].FirewallReleased?)
  }

  class EventLog {
    var events: seq<Event>

    constructor ()
      ensures events == []
    {
      events := [];
    }

    method Add(e: Event)
      modifies this
      ensures events == old(events) + [e]
    {
      events := events + [e];
    }
  }

  class DurableHostJournal {
    const log: EventLog
    var journal: Journal
    var disk: Option<Journal>
    var faults: seq<DiskFault>

    ghost predicate Valid()
      reads this
    {
      ValidJournal(journal)
    }

    /** Memory and disk agree. */
    ghost predicate Synced()
      reads this
    {
      disk == Some(journal)
    }

    /** Memory and disk agree, and no write will fail. */
    ghost predicate Dependable()
      reads this
    {
      Synced() && faults == []
    }

    constructor (log: EventLog, j: Journal, faults: seq<DiskFault>)
      requires ValidJournal(j)
      ensures Valid() && Synced() && journal == j && this.faults == faults && this.log == log
    {
      this.log := log;
      journal, disk, this.faults := j, Some(j), faults;
    }

    method NextFault() returns (f: DiskFault)
      modifies this`faults
      ensures old(faults) == [] ==> f == Works && faults == []
      ensures old(faults) != [] ==> f == old(faults)[0] && faults == old(faults)[1..]
    {
      if faults == [] { return Works; }
      f := faults[0];
      faults := faults[1..];
    }

    /** A crash now would leave a live record of the resource on disk. */
    ghost predicate Covers(r: Resource)
      reads this
    {
      disk.Some? && HasLive(disk.value.operations, r)
    }

    /** A write towards `next` either reached the disk or left it alone. */
    ghost predicate Left(was: Option<Journal>, events: seq<Event>, next: Journal)
      reads this, log
    {
      (disk == was && log.events == events) || (disk == Some(next) && log.events == events + [DiskWrote(next)])
    }

    /** `commit`: one more generation goes to disk before memory changes. */
    method Commit(phase: Phase, operations: seq<Record>) returns (r: Result<(), JournalError>)
      modifies this, log
      ensures Extends(old(log.events), log.events)
      ensures Left(old(disk), old(log.events), Successor(old(journal), phase, operations))
      ensures r.Ok? ==> journal == Successor(old(journal), phase, operations) && Synced() && log.events == old(log.events) + [DiskWrote(journal)]
      ensures r.Ok? ==> old(journal).generation < U64_MAX && old(Synced())
      ensures r.Err? ==> journal == old(journal)
      ensures !old(Synced()) ==> disk == old(disk) && log.events == old(log.events)
      ensures old(faults) == [] ==>
                faults == [] && (old(Synced()) && old(journal).generation < U64_MAX && old(journal).phase.CanBecome(phase) ==> r.Ok?)
      ensures old(Synced()) && old(journal).generation < U64_MAX && old(journal).phase.CanBecome(phase) ==>
                faults == Rest(old(faults), 1) && (Clear(old(faults), 1) ==> r.Ok?) && (FailsNext(old(faults)) ==> r.Err? && disk == old(disk))
      ensures old(Dependable()) ==> Dependable()
    {
      if !journal.phase.CanBecome(phase) { return Err(WrongPhase); }
      if journal.generation == U64_MAX { return Err(GenerationOverflow); }
      var next := Successor(journal, phase, operations);
      if disk != Some(journal) { return Err(StoreFailed); }
      var fault := NextFault();
      if !fault.FailsBefore? {
        disk := Some(next);
        log.Add(DiskWrote(next));
      }
      if !fault.Works? { return Err(StoreFailed); }
      journal := next;
      return Ok(());
    }

    // ---------------------------------------------------------------- recovery calls

    /** `begin_cleaning`. */
    method BeginCleaning() returns (r: Result<(), JournalError>)
      requires Valid()
      modifies this, log
      ensures Extends(old(log.events), log.events)
      ensures forall x :: old(Covers(x)) ==> Covers(x)
      ensures Valid() && journal.operations == old(journal).operations
      ensures Left(old(disk), old(log.events), Successor(old(journal), Cleaning, old(journal).operations))
      ensures r.Ok? ==> journal.phase.Cleaning? && journal.generation <= old(journal).generation + 1 && (old(Synced()) ==> Synced())
      ensures r.Ok? ==> if old(journal).phase.Cleaning? then journal == old(journal) && log.events == old(log.events)
                        else journal == Successor(old(journal), Cleaning, old(journal).operations) && log.events == old(log.events) + [DiskWrote(journal)]
      ensures r.Err? ==> journal == old(journal)
      ensures old(faults) == [] ==>
                faults == [] && (old(Synced()) && old(journal).generation < U64_MAX && !old(journal).phase.Conflict? ==> r.Ok?)
      ensures old(Dependable()) ==> Dependable()
    {
      match journal.phase
      case Cleaning => r := Ok(());
      case Conflict => r := Err(WrongPhase);
      case _ => r := Commit(Cleaning, journal.operations);
    }

    /** `mark_conflict`. */
    method MarkConflict() returns (r: Result<(), JournalError>)
      requires Valid()
      modifies this, log
      ensures Extends(old(log.events), log.events)
      ensures forall x :: old(Covers(x)) ==> Covers(x)
      ensures Valid() && journal.operations == old(journal).operations
      ensures Left(old(disk), old(log.events), Successor(old(journal), Conflict, old(journal).operations))
      ensures r.Ok? ==> journal.phase.Conflict? && (old(Synced()) ==> Synced())
      ensures r.Ok? && !old(journal).phase.Conflict? ==> journal == Successor(old(journal), Conflict, old(journal).operations)
      ensures r.Err? ==> journal == old(journal)
      ensures old(journal).phase.Conflict? || (old(faults) == [] && old(Synced()) && old(journal).generation < U64_MAX) ==> r.Ok?
      ensures old(Dependable()) ==> Dependable()
    {
      if journal.phase.Conflict? { return Ok(()); }
      r := Commit(Conflict, journal.operations);
    }

    /** `acknowledge_recovery_step`. */
    method AcknowledgeRecoveryStep(id: U32) returns (r: Result<(), JournalError>)
      requires Valid()
      modifies this, log
      ensures Valid()
      ensures if 1 <= id <= |old(journal).operations|
              then Left(old(disk), old(log.events), Successor(old(journal), Cleaning, WithState(old(journal).operations, id, Removed)))
              else r.Err? && disk == old(disk) && log.events == old(log.events)
      ensures r.Ok? ==> 1 <= id <= |old(journal).operations| && old(journal).phase.Cleaning? && journal.phase.Cleaning? && journal.generation <= old(journal).generation + 1 &&
                        journal.operations == WithState(old(journal).operations, id, Removed) && (old(Synced()) ==> Synced())
      ensures r.Ok? && !old(journal).operations[id - 1].state.Removed? ==>
                journal == Successor(old(journal), Cleaning, WithState(old(journal).operations, id, Removed)) &&
                log.events == old(log.events) + [DiskWrote(journal)]
      ensures r.Err? ==> journal == old(journal)
      ensures old(faults) == [] ==>
                faults == [] && (old(Synced()) && old(journal).generation < U64_MAX && old(journal).phase.Cleaning? && 1 <= id <= |old(journal).operations| ==> r.Ok?)
    {
      if !journal.phase.Cleaning? { return Err(WrongPhase); }
      if id < 1 || id > |journal.operations| { return Err(Missing); }
      if journal.operations[id - 1].state.Removed? {
        assert WithState(journal.operations, id, Removed) == journal.operations;
        return Ok(());
      }
      r := Commit(Cleaning, WithState(journal.operations, id, Removed));
    }

    /** `remove_completed_file`: only a fully removed cleaning journal goes. */
    method RemoveCompletedFile() returns (r: Result<(), JournalError>)
      modifies this, log
      ensures Extends(old(log.events), log.events)
      ensures forall x :: old(Covers(x)) ==> Covers(x)
      ensures journal == old(journal)
      ensures (disk == old(disk) && log.events == old(log.events)) ||
              (disk == None && old(disk).Some? && FullyRemoved(old(disk).value) && log.events == old(log.events) + [DiskRemoved])
      ensures r.Ok? ==> disk == None
      ensures old(faults) == [] && old(disk).Some? && FullyRemoved(old(disk).value) ==> r.Ok?
      ensures old(Dependable()) && r.Err? ==> Dependable()
    {
      if disk.None? || !FullyRemoved(disk.value) { return Err(NotFullyRemoved); }
      var fault := NextFault();
      if !fault.FailsBefore? {
        disk := None;
        log.Add(DiskRemoved);
      }
      if !fault.Works? { return Err(StoreFailed); }
      return Ok(());
    }

    // ------------------------------------------------------------ live-session calls

    method EnsurePreparing() returns (r: Result<(), JournalError>)
      requires Valid()
      modifies this, log
      ensures journal.session == old(journal).session
      ensures Extends(old(log.events), log.events)
      ensures forall x :: old(Covers(x)) ==> Covers(x)
      ensures Valid() && journal.operations == old(journal).operations
      ensures Left(old(disk), old(log.events), Successor(old(journal), Preparing, old(journal).operations))
      ensures r.Ok? ==> journal.phase.Preparing? && (old(Synced()) ==> Synced())
      ensures r.Ok? ==> journal.generation <= old(journal).generation + 1
      ensures r.Ok? && old(journal).phase.Active? ==> journal.generation == old(journal).generation + 1
      ensures r.Err? ==> journal == old(journal)
      ensures old(journal).phase.Preparing? ==> r.Ok? && faults == old(faults) && journal == old(journal)
      ensures old(journal).phase.Active? && old(Synced()) && old(journal).generation < U64_MAX ==>
                faults == Rest(old(faults), 1) && (Clear(old(faults), 1) ==> r.Ok?) && (FailsNext(old(faults)) ==> r.Err? && disk == old(disk))
      ensures old(Dependable()) ==> Dependable()
    {
      match journal.phase
      case Preparing => r := Ok(());
      case Active => r := Commit(Preparing, journal.operations);
      case _ => r := Err(WrongPhase);
    }

    /** `begin_remove`: the newest live record of the resource, which must be applied. */
    method BeginRemove(resource: Resource) returns (r: Result<U32, JournalError>)
      requires Valid()
      modifies this, log
      ensures journal.session == old(journal).session
      ensures Extends(old(log.events), log.events)
      ensures forall x :: old(Covers(x)) ==> Covers(x)
      ensures Valid() && journal.operations == old(journal).operations
      ensures Left(old(disk), old(log.events), Successor(old(journal), Preparing, old(journal).operations))
      ensures r.Ok? ==> journal.phase.Preparing? && 1 <= r.value <= |journal.operations| && (old(Synced()) ==> Synced()) &&
                        journal.operations[r.value - 1].resource == resource && journal.operations[r.value - 1].state.Applied?
      ensures r.Err? ==> journal == old(journal)
      ensures old(faults) == [] && old(Synced()) && old(journal).generation < U64_MAX && HasApplied(old(journal).operations, resource) &&
              (old(journal).phase.Active? || old(journal).phase.Preparing?) ==>
                r.Ok? && faults == [] && Synced() && journal.generation == old(journal).generation + (if old(journal).phase.Active? then 1 else 0)
      ensures old(journal).phase.Preparing? ==> journal == old(journal)
      ensures old(Dependable()) ==> Dependable()
    {
      var i := |journal.operations|;
      while i > 0 && (journal.operations[i - 1].resource != resource || journal.operations[i - 1].state.Removed?)
        invariant 0 <= i <= |journal.operations|
        invariant forall k :: i <= k < |journal.operations| ==> journal.operations[k].resource != resource || journal.operations[k].state.Removed?
      {
        i := i - 1;
      }
      if i == 0 { return Err(Missing); }
      if !journal.operations[i - 1].state.Applied? { return Err(WrongState); }
      var id := journal.operations[i - 1].id;
      var prepared := EnsurePreparing();
      if prepared.Err? { return Err(prepared.error); }
      return Ok(id);
    }

    method AcknowledgeRemove(id: U32) returns (r: Result<(), JournalError>)
      requires Valid()
      modifies this, log
      ensures journal.session == old(journal).session
      ensures Extends(old(log.events), log.events)
      ensures forall x :: old(Covers(x)) && !(1 <= id <= |old(journal).operations| && old(journal).operations[id - 1].resource == x) ==> Covers(x)
      ensures Valid()
      ensures if 1 <= id <= |old(journal).operations|
              then Left(old(disk), old(log.events), Successor(old(journal), old(journal).phase, WithState(old(journal).operations, id, Removed)))
              else r.Err? && disk == old(disk) && log.events == old(log.events)
      ensures r.Ok? ==> 1 <= id <= |old(journal).operations| && old(journal).operations[id - 1].state.Applied? && journal.phase == old(journal).phase &&
                        journal.operations == WithState(old(journal).operations, id, Removed) && (old(Synced()) ==> Synced())
      ensures r.Err? ==> journal == old(journal)
      ensures DoubtsStay(old(journal).operations, journal.operations) && Fewer(old(journal).operations, journal.operations)
      ensures old(faults) == [] && old(Synced()) && old(journal).generation < U64_MAX && old(journal).phase.Preparing? &&
              1 <= id <= |old(journal).operations| && old(journal).operations[id - 1].state.Applied? ==>
                r.Ok? && faults == [] && journal.generation == old(journal).generation + 1
      ensures old(Dependable()) ==> Dependable()
    {
      if id < 1 || id > |journal.operations| { return Err(Missing); }
      if !journal.operations[id - 1].state.Applied? { return Err(WrongState); }
      if journal.phase.Active? || journal.phase.Conflict? { return Err(WrongPhase); }
      ghost var ops := journal.operations;
      forall x | HasLive(ops, x) && ops[id - 1].resource != x ensures HasLive(WithState(ops, id, Removed), x) {
        WithStateKeeps(ops, id, Removed, x);
      }
      RemovedDoubts(ops, id);
      r := Commit(journal.phase, WithState(journal.operations, id, Removed));
    }

    /** `begin_add`: the resource is on disk as planned before anything is done about it. */
    method BeginAdd(resource: Resource) returns (r: Result<U32, JournalError>)
      requires Valid()
      modifies this, log
      ensures journal.session == old(journal).session
      ensures Extends(old(log.events), log.events)
      ensures Valid()
      ensures forall x :: old(Covers(x)) ==> Covers(x)
      ensures r.Ok? ==> Synced() && Covers(resource) && journal.phase.Preparing? && r.value == |old(journal).operations| + 1 &&
                        journal.operations == old(journal).operations + [Record(r.value, Planned, resource)]
      ensures r.Err? ==> journal.operations == old(journal).operations
      ensures DoubtsStay(old(journal).operations, journal.operations)
      ensures Addable(old(journal), resource) && old(journal).phase.Active? && old(Synced()) ==>
                (Clear(old(faults), 2) ==> r.Ok? && faults == Rest(old(faults), 2) && journal.generation == old(journal).generation + 2) &&
                (FailsNext(old(faults)) ==> r.Err? && journal == old(journal) && disk == old(disk) && faults == old(faults)[1..])
      ensures Addable(old(journal), resource) && old(journal).phase.Preparing? && old(Dependable()) ==> r.Ok?
      ensures old(Dependable()) ==> Dependable()
    {
      if !journal.phase.Active? && !journal.phase.Preparing? { return Err(WrongPhase); }
      if |journal.operations| >= MAX_OPERATIONS { return Err(Capacity); }
      if exists i | 0 <= i < |journal.operations| :: journal.operations[i].resource == resource && !journal.operations[i].state.Removed? {
        return Err(WrongState);
      }
      var prepared := EnsurePreparing();
      if prepared.Err? { return Err(prepared.error); }
      var id: U32 := |journal.operations| + 1;
      ghost var ops := journal.operations;
      forall x | HasLive(ops, x) || x == resource ensures HasLive(ops + [Record(id, Planned, resource)], x) {
        AppendKeeps(ops, Record(id, Planned, resource), x);
      }
      AppendDoubts(ops, Record(id, Planned, resource));
      var written := Commit(Preparing, journal.operations + [Record(id, Planned, resource)]);
      if written.Err? { return Err(written.error); }
      return Ok(id);
    }

    method AcknowledgeAdd(id: U32) returns (r: Result<(), JournalError>)
      requires Valid()
      modifies this, log
      ensures journal.session == old(journal).session
      ensures Extends(old(log.events), log.events)
      ensures Valid()
      ensures forall x :: old(Covers(x)) ==> Covers(x)
      ensures r.Ok? ==> 1 <= id <= |old(journal).operations| && old(journal).operations[id - 1].state.Planned? &&
                        journal.operations == WithState(old(journal).operations, id, Applied)
      ensures r.Ok? ==> Synced() && journal.phase.Preparing? && journal.generation == old(journal).generation + 1
      ensures r.Err? ==> journal == old(journal)
      ensures old(Synced()) && old(journal).generation < U64_MAX && old(journal).phase.Preparing? && Clear(old(faults), 1) &&
              1 <= id <= |old(journal).operations| && old(journal).operations[id - 1].state.Planned? ==>
                r.Ok? && faults == Rest(old(faults), 1)
      ensures old(Dependable()) ==> Dependable()
    {
      if id < 1 || id > |journal.operations| { return Err(Missing); }
      if !journal.operations[id - 1].state.Planned? { return Err(WrongState); }
      if !journal.phase.Preparing? { return Err(WrongPhase); }
      ghost var ops := journal.operations;
      forall x | HasLive(ops, x) ensures HasLive(WithState(ops, id, Applied), x) {
        WithStateKeeps(ops, id, Applied, x);
      }
      r := Commit(Preparing, WithState(journal.operations, id, Applied));
    }

    method PublishActive() returns (r: Result<(), JournalError>)
      requires Valid()
      modifies this, log
      ensures journal.session == old(journal).session
      ensures Extends(old(log.events), log.events)
      ensures forall x :: old(Covers(x)) ==> Covers(x)
      ensures Valid() && journal.operations == old(journal).operations
      ensures Left(old(disk), old(log.events), Successor(old(journal), Active, old(journal).operations))
      ensures r.Ok? ==> journal.phase.Active? && Synced() && journal.generation == old(journal).generation + 1 && old(journal).phase.Preparing?
      ensures r.Err? ==> journal == old(journal)
      ensures old(Synced()) && old(journal).generation < U64_MAX && old(journal).phase.Preparing? && Clear(old(faults), 1) &&
              (forall x :: !InDoubt(old(journal).operations, x)) ==>
                r.Ok? && faults == Rest(old(faults), 1)
      ensures old(Dependable()) ==> Dependable()
    {
      if !journal.phase.Preparing? { return Err(WrongPhase); }
      if i :| 0 <= i < |journal.operations| && journal.operations[i].state.Planned? {
        assert InDoubt(journal.operations, journal.operations[i].resource);
        return Err(WrongState);
      }
      r := Commit(Active, journal.operations);
    }
  }

  predicate FullyRemoved(j: Journal) {
    j.phase.Cleaning? && forall i :: 0 <= i < |j.operations| ==> j.operations[i].state.Removed?
  }
}
