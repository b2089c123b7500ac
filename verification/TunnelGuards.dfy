/** The client's full-tunnel guards: journaled set-up, ordered teardown and the
    ways of giving up, with every host command and every disk write allowed to
    fail before or after taking effect. */
module TunnelGuards {
  import opened Prelude
  import opened Ordered
  import opened HostJournal

  datatype TunView = Gone | Present | Changed

  /** The machine: which owned objects exist in the kernel and on the file system. */
  class Host {
    const log: EventLog
    var present: set<Resource>
    var faults: seq<DiskFault>
    /** Whether another interface answers to the name of a closed one. */
    var impostors: seq<bool>

    constructor (log: EventLog, present: set<Resource>, faults: seq<DiskFault>, impostors: seq<bool>)
      ensures this.log == log && this.present == present && this.faults == faults && this.impostors == impostors
    {
      this.log, this.present, this.faults, this.impostors := log, present, faults, impostors;
    }

    method NextFault() returns (f: DiskFault)
      modifies this`faults
      ensures f == (if old(faults) == [] then Works else old(faults)[0]) && faults == Rest(old(faults), 1)
    {
      if faults == [] { return Works; }
      f := faults[0];
      faults := faults[1..];
    }

    method Install(r: Resource) returns (ok: bool)
      modifies this`present, this`faults
      ensures present == old(present) || present == old(present) + {r}
      ensures ok ==> present == old(present) + {r}
      ensures faults == Rest(old(faults), 1) && (Clear(old(faults), 1) ==> ok)
    {
      var fault := NextFault();
      if !fault.FailsBefore? { present := present + {r}; }
      ok := fault.Works?;
    }

    method Remove(r: Resource) returns (ok: bool)
      modifies this`present, this`faults, log
      ensures present == old(present) || present == old(present) - {r}
      ensures ok ==> present == old(present) - {r}
      ensures log.events == old(log.events) || log.events == old(log.events) + [HostRemoved(r)]
      ensures faults == Rest(old(faults), 1) && (FailsNext(old(faults)) ==> present == old(present)) && (old(faults) == [] ==> ok)
    {
      var fault := NextFault();
      if !fault.FailsBefore? {
        present := present - {r};
        log.Add(HostRemoved(r));
      }
      ok := fault.Works?;
    }

    /** The last descriptor is closed; a leaked clone keeps the interface alive. */
    method CloseTun(r: Resource)
      modifies this, log
      ensures present == old(present) || present == old(present) - {r}
      ensures log.events == old(log.events) + [TunClosed]
      ensures old(faults) == [] ==> faults == [] && present == old(present) - {r}
      ensures impostors == old(impostors)
    {
      var fault := NextFault();
      if fault.Works? { present := present - {r}; }
      log.Add(TunClosed);
    }

    method InspectTun(r: Resource) returns (view: TunView)
      modifies this`impostors, log
      ensures view.Gone? ==> r !in present && log.events == old(log.events) + [TunSeenAbsent]
      ensures !view.Gone? ==> log.events == old(log.events)
      ensures old(impostors) == [] ==> impostors == [] && (r !in present ==> view.Gone?)
      ensures view == if old(impostors) != [] && old(impostors)[0] then Changed else if r in present then Present else Gone
    {
      var impostor := impostors != [] && impostors[0];
      impostors := if impostors == [] then [] else impostors[1..];
      if impostor { return Changed; }
      if r in present { return Present; }
      log.Add(TunSeenAbsent);
      return Gone;
    }

    /** `KillSwitch::shutdown`: reached, whatever comes of it. */
    method ReleaseFirewall(rs: set<Resource>) returns (ok: bool)
      modifies this, log
      ensures log.events == old(log.events) + [FirewallReleased(old(present))]
      ensures present == old(present) || present == old(present) - rs
      ensures ok ==> present == old(present) - rs
      ensures old(faults) == [] ==> ok
    {
      log.Add(FirewallReleased(present));
      var fault := NextFault();
      if !fault.FailsBefore? { present := present - rs; }
      ok := fault.Works?;
    }
  }

  datatype GuardError = WalFailed(cause: JournalError) | HostCommand | AmbiguousState | AlreadyPrepared | NotPrepared | TunSurvives | TunConflict | Survivor | Refused

  predicate Diverts(r: Resource) { r.Route? || r.Dns? }

  predicate FirewallPart(r: Resource) { r.Firewall? || r.FirewallEndpoint? }

  /** Whenever the firewall was released, the TUN had been seen absent and no route or
      resolver exchange was left but the given ones. */
  ghost predicate CleanReleases(events: seq<Event>, lost: set<Resource>) {
    forall i :: 0 <= i < |events| && events[i].FirewallReleased? ==>
      TunSeenAbsent in events[..i] && forall r :: r in events[i].present && Diverts(r) ==> r in lost
  }

  /** Only appended to, and every release since then found exactly `present`. */
  ghost predicate ReleasesOnly(before: seq<Event>, after: seq<Event>, present: set<Resource>) {
    && |before| <= |after| && (forall i :: 0 <= i < |before| ==> after[i] == before[i])
    && (forall i :: |before| <= i < |after| && after[i].FirewallReleased? ==> after[i].present == present)
  }

  /** The firewall was released since then. */
  ghost predicate Released(before: seq<Event>, after: seq<Event>) {
    exists i :: |before| <= i < |after| && after[i].FirewallReleased?
  }

  lemma ReleasesThrough(a: seq<Event>, b: seq<Event>, c: seq<Event>, present: set<Resource>)
    requires Extends(a, b) && ReleasesOnly(b, c, present)
    ensures ReleasesOnly(a, c, present) && (Released(a, c) <==> Released(b, c))
  {
    if Released(a, c) {
      var i :| |a| <= i < |c| && c[i].FirewallReleased?;
      assert forall k :: |a| <= k < |b| ==> c[k] == b[k];
      assert |b| <= i;
    }
    if Released(b, c) {
      var i :| |b| <= i < |c| && c[i].FirewallReleased?;
    }
  }

  lemma ReleasedHere(a: seq<Event>, b: seq<Event>, c: seq<Event>, present: set<Resource>)
    requires Extends(a, b) && Extends(b + [FirewallReleased(present)], c)
    ensures ReleasesOnly(a, c, present) && Released(a, c)
  {
    var mid := b + [FirewallReleased(present)];
    assert c[|b|] == mid[|b|];
    forall i | |a| <= i < |c| && c[i].FirewallReleased? ensures c[i].present == present {
      assert forall k :: |a| <= k < |b| ==> c[k] == mid[k] == b[k];
      assert |b| <= i;
    }
    forall i | 0 <= i < |a| ensures c[i] == a[i] {
      assert c[i] == mid[i] == b[i];
    }
  }

  lemma CleanExtends(before: seq<Event>, after: seq<Event>, lost: set<Resource>, more: set<Resource>)
    requires CleanReleases(before, lost) && Extends(before, after) && lost <= more
    ensures CleanReleases(after, more)
  {
    forall i | 0 <= i < |after| && after[i].FirewallReleased?
      ensures TunSeenAbsent in after[..i] && forall r :: r in after[i].present && Diverts(r) ==> r in more {
      assert after[..i] == before[..i];
    }
  }

  lemma CleanRelease(before: seq<Event>, present: set<Resource>, lost: set<Resource>)
    requires CleanReleases(before, lost) && TunSeenAbsent in before && forall r :: r in present && Diverts(r) ==> r in lost
    ensures CleanReleases(before + [FirewallReleased(present)], lost)
  {
    var after := before + [FirewallReleased(present)];
    forall i | 0 <= i < |after| && after[i].FirewallReleased?
      ensures TunSeenAbsent in after[..i] && forall r :: r in after[i].present && Diverts(r) ==> r in lost {
      assert after[..i] == before[..i];
      assert before[..|before|] == before;
      assert i < |before| ==> after[i] == before[i];
    }
  }

  /** What decides how an undisturbed call goes on. */
  datatype Snap = Snap(journal: Journal, disk: Option<Journal>, faults: seq<DiskFault>, present: set<Resource>, hostFaults: seq<DiskFault>, ambiguous: bool)

  /** Ready to record and install the object. */
  ghost predicate ReadyFor(s: Snap, r: Resource) {
    && |s.journal.operations| < MAX_OPERATIONS && !HasLive(s.journal.operations, r) && s.journal.generation + 4 < U64_MAX
    && s.journal.phase.Active? && s.disk == Some(s.journal)
  }

  /** The journal once the object is recorded as planned. */
  function Intended(j: Journal, r: Resource): Journal
    requires |j.operations| < MAX_OPERATIONS
  {
    j.(generation := SatAdd64(j.generation, 2), phase := Preparing, operations := j.operations + [Record(|j.operations| + 1, Planned, r)])
  }

  /** And once it is installed and published. */
  function Settled(j: Journal, r: Resource): Journal
    requires |j.operations| < MAX_OPERATIONS
  {
    j.(generation := SatAdd64(j.generation, 4), phase := Active, operations := j.operations + [Record(|j.operations| + 1, Applied, r)])
  }

  /** A planned record is acknowledged and published. */
  function Confirmed(s: Snap, id: U32): Snap
    requires 1 <= id <= |s.journal.operations|
  {
    var j := s.journal.(generation := SatAdd64(s.journal.generation, 2), phase := Active, operations := WithState(s.journal.operations, id, Applied));
    s.(journal := j, disk := Some(j), ambiguous := false)
  }

  ghost function Installed(s: Snap, r: Resource): Snap
    requires ReadyFor(s, r)
  {
    Snap(Settled(s.journal, r), Some(Settled(s.journal, r)), Rest(s.faults, 4), s.present + {r}, Rest(s.hostFaults, 1), false)
  }

  // ------------------------------------------------------------------- orderly removal

  /** The records with those of the given resources removed. */
  function Without(ops: seq<Record>, rs: set<Resource>): (r: seq<Record>)
    ensures |r| == |ops| && forall i :: 0 <= i < |ops| ==> r[i] == if ops[i].resource in rs then ops[i].(state := Removed) else ops[i]
  {
    seq(|ops|, i requires 0 <= i < |ops| => if ops[i].resource in rs then ops[i].(state := Removed) else ops[i])
  }

  /** The resources are gone, from the host and from the journal. */
  function Taken(s: Snap, rs: set<Resource>): Snap {
    var j := s.journal.(generation := SatAdd64(s.journal.generation, 3 * |rs|), operations := Without(s.journal.operations, rs));
    s.(journal := j, disk := Some(j), present := s.present - rs)
  }

  /** Nothing is pending, nothing will fail, and the generation counter has room for the
      removal of all that is recorded. */
  ghost predicate Easy(s: Snap) {
    && ValidJournal(s.journal) && s.disk == Some(s.journal) && s.journal.phase.Active? && !s.ambiguous && s.faults == [] && s.hostFaults == []
    && s.journal.generation + 3 * |LiveSet(s.journal.operations)| + 8 < U64_MAX
  }

  ghost predicate CanTake(s: Snap, rs: set<Resource>) {
    Easy(s) && rs <= LiveSet(s.journal.operations)
  }

  /** The journal is open for a removal. */
  function Begun(s: Snap): Snap {
    var j := Successor(s.journal, Preparing, s.journal.operations);
    s.(journal := j, disk := Some(j))
  }

  lemma TakeOne(s: Snap, x: Resource)
    requires CanTake(s, {x})
    ensures HasApplied(s.journal.operations, x) && (forall y :: !InDoubt(s.journal.operations, y)) && s.journal.generation + 11 < U64_MAX
  {
    assert x in LiveSet(s.journal.operations);
    LiveApplied(s.journal.operations, x);
    assert {x} <= LiveSet(s.journal.operations);
    SubsetCard({x}, LiveSet(s.journal.operations));
  }

  lemma SubsetCard<T>(a: set<T>, b: set<T>)
    requires a <= b
    ensures |a| <= |b| && |b - a| == |b| - |a|
  {
    assert b == a + (b - a);
  }

  /** Removing the one live record of a resource. */
  lemma TakenOne(s: Snap, id: U32, x: Resource)
    requires ValidJournal(s.journal) && 1 <= id <= |s.journal.operations| && s.journal.operations[id - 1].resource == x && !s.journal.operations[id - 1].state.Removed?
    ensures WithState(s.journal.operations, id, Removed) == Without(s.journal.operations, {x})
  {
    var ops := s.journal.operations;
    forall i | 0 <= i < |ops| ensures WithState(ops, id, Removed)[i] == Without(ops, {x})[i] {
      if i != id - 1 && ops[i].resource == x { assert ops[i].state.Removed?; }
    }
  }

  lemma WithoutLive(ops: seq<Record>, rs: set<Resource>)
    ensures LiveSet(Without(ops, rs)) == LiveSet(ops) - rs
  {
    var after := Without(ops, rs);
    forall x | x in LiveSet(after) ensures x in LiveSet(ops) - rs {
      var i :| 0 <= i < |after| && !after[i].state.Removed? && after[i].resource == x;
      assert ops[i] == after[i];
    }
    forall x | x in LiveSet(ops) - rs ensures x in LiveSet(after) {
      var i :| 0 <= i < |ops| && !ops[i].state.Removed? && ops[i].resource == x;
      assert after[i] == ops[i];
    }
  }

  lemma WithoutTwice(ops: seq<Record>, a: set<Resource>, b: set<Resource>)
    ensures Without(Without(ops, a), b) == Without(ops, a + b)
  {
  }

  lemma WithoutValid(j: Journal, rs: set<Resource>, generation: U64)
    requires ValidJournal(j) && j.phase.Active? && j.generation <= generation
    ensures ValidJournal(j.(generation := generation, operations := Without(j.operations, rs)))
  {
  }

  /** After some removals, more can follow. */
  lemma TakenEasy(s: Snap, a: set<Resource>)
    requires CanTake(s, a)
    ensures Easy(Taken(s, a)) && LiveSet(Taken(s, a).journal.operations) == LiveSet(s.journal.operations) - a
  {
    WithoutLive(s.journal.operations, a);
    WithoutValid(s.journal, a, Taken(s, a).journal.generation);
    SubsetCard(a, LiveSet(s.journal.operations));
  }

  lemma NothingLeft<T>(a: set<T>, b: set<T>)
    ensures a - b == {} <==> a <= b
  {
    if a - b == {} {
      forall x | x in a ensures x in b { assert x !in a - b; }
    }
  }

  lemma Regroup<T>(a: set<T>, b: set<T>, c: set<T>, d: set<T>)
    ensures a + b + c + d == (a + b) + (c + d)
  {
  }

  lemma GoneInTwo<T>(before: set<T>, mid: set<T>, after: set<T>, a: set<T>, b: set<T>)
    requires before - a <= mid <= before && mid - b <= after <= mid
    ensures before - (a + b) <= after <= before
    ensures mid !! a && after !! b ==> after !! a + b
  {
  }

  lemma CoveredBy<T>(all: set<T>, a: set<T>, x: T, b: set<T>)
    ensures (all - a) - {x} <= b <==> all <= a + ({x} + b)
  {
    if (all - a) - {x} <= b {
      forall y | y in all ensures y in a + ({x} + b) {
        if y !in a && y != x { assert y in (all - a) - {x}; }
      }
    }
  }

  lemma InParts<T>(a: set<T>, b: set<T>, all: set<T>)
    requires a !! b && a + b <= all
    ensures a <= all && b <= all - a && |a + b| == |a| + |b| <= |all|
  {
    SubsetCard(a + b, all);
  }

  lemma TakenApart<T>(all: set<T>, a: set<T>, b: set<T>)
    ensures (all - a) - b == all - (a + b)
  {
  }

  lemma TakenLeaves(s: Snap, a: set<Resource>, b: set<Resource>)
    requires CanTake(s, a + b) && a !! b
    ensures CanTake(s, a) && CanTake(Taken(s, a), b)
  {
    InParts(a, b, LiveSet(s.journal.operations));
    TakenEasy(s, a);
  }

  lemma TakenTwice(s: Snap, a: set<Resource>, b: set<Resource>)
    requires s.journal.generation + 3 * |a + b| <= U64_MAX && |a + b| == |a| + |b|
    ensures Taken(Taken(s, a), b) == Taken(s, a + b)
  {
    WithoutTwice(s.journal.operations, a, b);
    TakenApart(s.present, a, b);
  }

  lemma TakenMore(s: Snap, a: set<Resource>, b: set<Resource>)
    requires CanTake(s, a + b) && a !! b
    ensures CanTake(s, a) && CanTake(Taken(s, a), b) && Taken(Taken(s, a), b) == Taken(s, a + b)
  {
    TakenLeaves(s, a, b);
    InParts(a, b, LiveSet(s.journal.operations));
    TakenTwice(s, a, b);
  }

  /** Removing nothing changes nothing. */
  lemma TakenNone(s: Snap)
    requires s.disk == Some(s.journal)
    ensures Taken(s, {}) == s
  {
    assert Without(s.journal.operations, {}) == s.journal.operations;
    assert s.present - {} == s.present;
  }

  lemma NoDoubts(j: Journal)
    requires ValidJournal(j) && j.phase.Active?
    ensures forall x :: !InDoubt(j.operations, x)
  {
  }

  /** What had a live record has one before some were removed, and no doubt was settled. */
  lemma LeftLive(before: seq<Record>, after: seq<Record>, left: set<Resource>)
    requires Fewer(before, after) && (forall x :: x in left ==> HasLive(after, x)) && forall x :: !InDoubt(after, x)
    ensures (forall x :: x in left ==> HasLive(before, x)) && forall x :: !InDoubt(before, x)
  {
    forall x | x in left ensures HasLive(before, x) { FewerLive(before, after, x); }
    forall x ensures !InDoubt(before, x) {
      if InDoubt(before, x) { FewerDoubts(before, after, x); }
    }
  }

  lemma AllApplied(ops: seq<Record>)
    requires forall x :: !InDoubt(ops, x)
    ensures forall x :: x in LiveSet(ops) ==> HasApplied(ops, x)
  {
    forall x | x in LiveSet(ops) ensures HasApplied(ops, x) { LiveApplied(ops, x); }
  }

  lemma NothingRecorded(ops: seq<Record>)
    ensures LiveSet(ops) == {} <==> forall i :: 0 <= i < |ops| ==> ops[i].state.Removed?
  {
    if LiveSet(ops) == {} {
      forall i | 0 <= i < |ops| ensures ops[i].state.Removed? {
        assert ops[i].resource !in LiveSet(ops);
      }
    }
  }

  /** The guards of an owner, and whether an interface other than its own answers for it. */
  datatype Guards = Guards(
    complete: bool, routes: Option<seq<Resource>>, dns: Option<Resource>, bypass: Option<map<nat, Resource>>, ssh: Option<Resource>,
    tun: Option<Resource>, tunRemove: Option<U32>, killSwitch: Option<set<Resource>>, impostors: seq<bool>)

  /** Only the TUN and the firewall are held. */
  function Bare(tun: Resource, tunRemove: Option<U32>, parts: set<Resource>): Guards {
    Guards(false, None, None, None, None, Some(tun), tunRemove, Some(parts), [])
  }

  /** An orderly teardown: where it starts, what is held then, the TUN and the firewall. */
  datatype Course = Course(s: Snap, held: set<Resource>, tun: Resource, parts: set<Resource>)

  /** The removal of the TUN is recorded under `id`, and the firewall parts are applied. */
  ghost predicate Endable(j: Journal, id: U32, tun: Resource, parts: set<Resource>) {
    && j.phase.Preparing? && j.generation + |parts| + 9 < U64_MAX && 1 <= id <= |j.operations| && j.operations[id - 1] == Record(id, Applied, tun)
    && tun.Tun? && parts != {} && (forall x :: x in parts ==> FirewallPart(x) && HasApplied(j.operations, x)) && forall x :: !InDoubt(j.operations, x)
  }

  /** Every held object, the TUN and every firewall part has a live record. */
  ghost predicate Sound(c: Course) {
    && Easy(c.s) && c.held + ({c.tun} + c.parts) <= LiveSet(c.s.journal.operations)
    && (forall x :: x in c.held ==> Diverts(x)) && c.tun.Tun? && c.parts != {} && forall x :: x in c.parts ==> FirewallPart(x)
  }

  lemma Apart(held: set<Resource>, tun: Resource, parts: set<Resource>, live: set<Resource>)
    requires (forall x :: x in held ==> Diverts(x)) && tun.Tun? && (forall x :: x in parts ==> FirewallPart(x)) && held + ({tun} + parts) <= live
    ensures held <= live && {tun} + parts <= live - held && |parts| < |live - held|
  {
    SubsetCard({tun} + parts, live - held);
    assert |{tun} + parts| == 1 + |parts|;
  }

  /** What is left once everything that diverts is gone. */
  function LeftOf(c: Course): Journal { Taken(c.s, c.held).journal }

  lemma OrderlyLeft(c: Course)
    requires Sound(c)
    ensures CanTake(c.s, c.held) && Easy(Taken(c.s, c.held)) && LeftOf(c).generation + |c.parts| + 11 < U64_MAX
    ensures var ops := LeftOf(c).operations;
            LiveSet(ops) == LiveSet(c.s.journal.operations) - c.held && HasApplied(ops, c.tun) && (forall x :: x in c.parts ==> HasApplied(ops, x)) &&
            forall x :: !InDoubt(ops, x)
  {
    Apart(c.held, c.tun, c.parts, LiveSet(c.s.journal.operations));
    TakenEasy(c.s, c.held);
    NoDoubts(LeftOf(c));
    AllApplied(LeftOf(c).operations);
  }

  lemma OrderlyTun(c: Course)
    requires Sound(c)
    ensures var t := Taken(c.s, c.held);
            t.disk == Some(t.journal) && t.faults == [] && t.hostFaults == [] && t.journal.phase.Active? && t.journal.generation + 1 < U64_MAX &&
            HasApplied(t.journal.operations, c.tun)
  {
    OrderlyLeft(c);
  }

  lemma OrderlyEnd(c: Course, id: U32)
    requires Sound(c) && 1 <= id <= |LeftOf(c).operations| && LeftOf(c).operations[id - 1] == Record(id, Applied, c.tun)
    ensures Endable(Opened(LeftOf(c)), id, c.tun, c.parts) && LiveSet(Opened(LeftOf(c)).operations) == LiveSet(c.s.journal.operations) - c.held
  {
    OrderlyLeft(c);
  }

  /** The record of the TUN is closed. */
  lemma EndingNext(j: Journal, id: U32, tun: Resource, parts: set<Resource>)
    requires ValidJournal(j) && Endable(j, id, tun, parts)
    ensures var after := WithState(j.operations, id, Removed);
            LiveSet(after) == LiveSet(j.operations) - {tun} && (forall x :: x in parts ==> HasApplied(after, x)) && forall x :: !InDoubt(after, x)
  {
    RemovedLive(j.operations, id);
    RemovedNoDoubts(j.operations, id);
    StillApplied(j.operations, id, parts);
  }

  /** Each of the parts has its operation. */
  ghost predicate Named(ops: seq<Record>, parts: set<Resource>, operations: map<Resource, U32>) {
    operations.Keys == parts && forall x :: x in parts ==> 1 <= operations[x] <= |ops| && ops[operations[x] - 1].resource == x
  }

  /** The journal of a smooth removal: open for it, in a generation of its own. */
  function Opened(j: Journal): Journal {
    if j.phase.Active? then Successor(j, Preparing, j.operations) else j
  }

  /** The given parts are still recorded, each under its operation, and beside them `after`. */
  ghost predicate Acking(j: Journal, rest: set<Resource>, operations: map<Resource, U32>, after: set<Resource>) {
    && j.phase.Preparing? && j.generation + |rest| + 1 < U64_MAX && LiveSet(j.operations) == after + rest && after !! rest
    && (forall x :: !InDoubt(j.operations, x))
    && forall x :: x in rest ==> AckingAt(j.operations, operations, x)
  }

  ghost predicate AckingAt(ops: seq<Record>, operations: map<Resource, U32>, x: Resource) {
    x in operations && 1 <= operations[x] <= |ops| && ops[operations[x] - 1].resource == x && ops[operations[x] - 1].state.Applied?
  }

  lemma AckingNext(j: Journal, rest: set<Resource>, operations: map<Resource, U32>, x: Resource, after: set<Resource>)
    requires ValidJournal(j) && Acking(j, rest, operations, after) && x in rest
    ensures AckingAt(j.operations, operations, x) && j.generation < U64_MAX
    ensures Acking(Successor(j, Preparing, WithState(j.operations, operations[x], Removed)), rest - {x}, operations, after)
  {
    assert AckingAt(j.operations, operations, x);
    RemovedFrom(j, operations[x]);
    OneLess(after, rest, x);
    AllStillAcking(j.operations, rest, operations, x);
  }

  lemma OneLess<T>(a: set<T>, b: set<T>, x: T)
    requires a !! b && x in b
    ensures (a + b) - {x} == a + (b - {x}) && a !! b - {x} && |b - {x}| == |b| - 1
  {
  }

  lemma AllStillAcking(ops: seq<Record>, rest: set<Resource>, operations: map<Resource, U32>, x: Resource)
    requires (forall y :: y in rest ==> AckingAt(ops, operations, y)) && x in rest
    ensures AckingAt(ops, operations, x) && forall y :: y in rest - {x} ==> AckingAt(WithState(ops, operations[x], Removed), operations, y)
  {
    forall y | y in rest - {x} ensures AckingAt(WithState(ops, operations[x], Removed), operations, y) {
      StillAcking(ops, operations, x, y);
    }
  }

  lemma RemovedFrom(j: Journal, id: U32)
    requires ValidJournal(j) && 1 <= id <= |j.operations| && !j.operations[id - 1].state.Removed? && forall x :: !InDoubt(j.operations, x)
    ensures var ops := WithState(j.operations, id, Removed);
            LiveSet(ops) == LiveSet(j.operations) - {j.operations[id - 1].resource} && forall x :: !InDoubt(ops, x)
  {
    RemovedLive(j.operations, id);
    RemovedNoDoubts(j.operations, id);
  }

  lemma StillAcking(ops: seq<Record>, operations: map<Resource, U32>, x: Resource, y: Resource)
    requires AckingAt(ops, operations, x) && AckingAt(ops, operations, y) && x != y
    ensures AckingAt(WithState(ops, operations[x], Removed), operations, y)
  {
  }

  /** Each of the parts has its operation, with its record still applied. */
  ghost predicate AllAcking(ops: seq<Record>, parts: set<Resource>, operations: map<Resource, U32>) {
    operations.Keys == parts && forall x :: x in parts ==> AckingAt(ops, operations, x)
  }

  lemma AckingMore(ops: seq<Record>, parts: set<Resource>, operations: map<Resource, U32>, x: Resource, id: U32)
    requires AllAcking(ops, parts, operations) && 1 <= id <= |ops| && ops[id - 1].resource == x && ops[id - 1].state.Applied?
    ensures AllAcking(ops, parts + {x}, operations[x := id])
  {
    forall y | y in parts + {x} ensures AckingAt(ops, operations[x := id], y) {
      if y != x { assert AckingAt(ops, operations, y); }
    }
  }

  lemma AckingNamed(ops: seq<Record>, parts: set<Resource>, operations: map<Resource, U32>)
    requires AllAcking(ops, parts, operations)
    ensures Named(ops, parts, operations)
  {
    forall x | x in parts ensures 1 <= operations[x] <= |ops| && ops[operations[x] - 1].resource == x { assert AckingAt(ops, operations, x); }
  }

  /** Opened for the removal of the firewall, only its parts are to be acknowledged. */
  lemma ReleasableNext(j: Journal, parts: set<Resource>, operations: map<Resource, U32>)
    requires j.phase.Active? && j.generation + |parts| + 4 < U64_MAX && (forall x :: x in parts ==> HasApplied(j.operations, x))
    requires AllAcking(j.operations, parts, operations) && forall x :: !InDoubt(j.operations, x)
    ensures Acking(Opened(j), parts, operations, LiveSet(j.operations) - parts)
  {
    forall x | x in parts ensures x in LiveSet(j.operations) {
      var i :| 0 <= i < |j.operations| && j.operations[i].resource == x && j.operations[i].state.Applied?;
    }
  }

  ghost predicate EachOnce(rs: seq<Resource>) {
    forall i, k :: 0 <= i < k < |rs| ==> rs[i] != rs[k]
  }

  lemma ElementsNext(rs: seq<Resource>, i: nat)
    requires i < |rs|
    ensures Elements(rs[..i + 1]) == Elements(rs[..i]) + {rs[i]} <= Elements(rs)
    ensures EachOnce(rs) ==> rs[i] !in Elements(rs[..i])
  {
    assert rs[..i + 1] == rs[..i] + [rs[i]];
  }

  lemma OnceNext(s: Snap, rs: seq<Resource>, i: nat)
    requires i < |rs| && EachOnce(rs) && CanTake(s, Elements(rs))
    ensures CanTake(Taken(s, Elements(rs[..i])), {rs[i]})
    ensures Taken(Taken(s, Elements(rs[..i])), {rs[i]}) == Taken(s, Elements(rs[..i + 1]))
  {
    ElementsNext(rs, i);
    assert Elements(rs[..i + 1]) <= Elements(rs);
    TakenMore(s, Elements(rs[..i]), {rs[i]});
  }

  ghost predicate OneToOne(m: map<nat, Resource>) {
    forall a, b :: a in m && b in m && a != b ==> m[a] != m[b]
  }

  ghost function ValuesAt(m: map<nat, Resource>, keys: set<nat>): set<Resource> {
    set k | k in keys && k in m :: m[k]
  }

  lemma AllValues(m: map<nat, Resource>)
    ensures ValuesAt(m, m.Keys) == m.Values && ValuesAt(m, m.Keys - m.Keys) == {} && m.Keys - {} == m.Keys
  {
  }

  lemma ValuesNext(m: map<nat, Resource>, rest: set<nat>, ip: nat)
    requires rest <= m.Keys && ip in rest
    ensures ValuesAt(m, m.Keys - (rest - {ip})) == ValuesAt(m, m.Keys - rest) + {m[ip]} && m[ip] in m.Values
    ensures OneToOne(m) ==> m[ip] !in ValuesAt(m, m.Keys - rest)
  {
    assert m.Keys - (rest - {ip}) == (m.Keys - rest) + {ip};
  }

  lemma OneToOneNext(s: Snap, m: map<nat, Resource>, rest: set<nat>, ip: nat)
    requires rest <= m.Keys && ip in rest && OneToOne(m) && CanTake(s, m.Values)
    ensures CanTake(Taken(s, ValuesAt(m, m.Keys - rest)), {m[ip]})
    ensures Taken(Taken(s, ValuesAt(m, m.Keys - rest)), {m[ip]}) == Taken(s, ValuesAt(m, m.Keys - (rest - {ip})))
  {
    ValuesNext(m, rest, ip);
    assert ValuesAt(m, m.Keys - rest) <= m.Values;
    TakenMore(s, ValuesAt(m, m.Keys - rest), {m[ip]});
  }

  class FullTunnelGuards {
    const log: EventLog
    const host: Host
    const journal: DurableHostJournal
    var routes: Option<seq<Resource>>
    var bypass: Option<map<nat, Resource>>
    var ssh: Option<Resource>
    var dns: Option<Resource>
    var tun: Option<Resource>
    var tunRemove: Option<U32>
    var killSwitch: Option<set<Resource>>
    var ambiguous: bool
    var shutdownComplete: bool
    var handoff: bool
    /** Objects whose guard was dropped in a set-up call that failed after their record
        was acknowledged. */
    ghost var lost: set<Resource>
    /** Objects whose guard is still a local variable of the running call. */
    ghost var loose: set<Resource>
    /** No journal write fails during the life of this owner. */
    ghost const reliable: bool

    function RouteSet(): set<Resource>
      reads this
    {
      if routes.Some? then Elements(routes.value) else {}
    }

    function BypassSet(): set<Resource>
      reads this
    {
      if bypass.Some? then bypass.value.Values else {}
    }

    function SshSet(): set<Resource>
      reads this
    {
      if ssh.Some? then {ssh.value} else {}
    }

    function DnsSet(): set<Resource>
      reads this
    {
      if dns.Some? then {dns.value} else {}
    }

    /** Every object a guard of this owner holds. */
    ghost function Held(): set<Resource>
      reads this
    {
      RouteSet() + DnsSet() + BypassSet() + SshSet()
    }

    /** Every live record of a route or resolver exchange belongs to a guard. */
    ghost predicate Census()
      reads this, journal
    {
      forall r :: Diverts(r) && HasLive(journal.journal.operations, r) ==> r in Held()
    }

    ghost function Now(): Snap
      reads this, host, journal
    {
      Snap(journal.journal, journal.disk, journal.faults, host.present, host.faults, ambiguous)
    }

    ghost predicate Wired() {
      host.log == log && journal.log == log
    }

    /** While the firewall is held, every diverting object is held too, or its guard is on
        its way, or its record is still planned, or it was lost. */
    ghost predicate Guarded()
      reads this, host, journal
    {
      killSwitch.Some? ==> forall r :: r in host.present && Diverts(r) ==>
        r in Held() || r in lost || r in loose || InDoubt(journal.journal.operations, r)
    }

    ghost predicate Valid()
      reads this, host, journal, log
    {
      && Wired() && journal.Valid()
      // a crash now would find a live record of every owned object
      && (forall r :: r in host.present ==> journal.Covers(r))
      && Guarded()
      && CleanReleases(log.events, lost)
      && (tun.Some? ==> tun.value.Tun?)
      && (killSwitch.Some? ==> forall r :: r in killSwitch.value ==> FirewallPart(r))
      && (tunRemove.Some? ==> tun.Some? && 1 <= tunRemove.value <= |journal.journal.operations| &&
                              journal.journal.operations[tunRemove.value - 1].resource == tun.value)
      && (reliable && !shutdownComplete ==> journal.Dependable())
    }

    /** The guards take over once the firewall is engaged; nothing diverts traffic yet. */
    constructor (host: Host, journal: DurableHostJournal, tun: Resource, killSwitch: set<Resource>)
      requires host.log == journal.log && journal.Valid() && tun.Tun? && forall r :: r in killSwitch ==> FirewallPart(r)
      requires forall r :: r in host.present ==> journal.Covers(r) && !Diverts(r)
      requires CleanReleases(host.log.events, {})
      ensures Valid() && this.host == host && this.journal == journal && log == host.log
      ensures ambiguous && !shutdownComplete && !handoff && lost == {} && loose == {}
      ensures routes == None && bypass == Some(map[]) && ssh == None && dns == None
      ensures this.tun == Some(tun) && this.killSwitch == Some(killSwitch) && tunRemove == None
      ensures reliable <==> journal.Dependable()
    {
      reliable := journal.Dependable();
      log, this.host, this.journal := host.log, host, journal;
      routes, bypass, ssh, dns := None, Some(map[]), None, None;
      this.tun, tunRemove, this.killSwitch := Some(tun), None, Some(killSwitch);
      ambiguous, shutdownComplete, handoff := true, false, false;
      lost, loose := {}, {};
    }

    // --------------------------------------------------- journal calls under the guards

    /** Acknowledges an object that a guard holds, or that is no route or exchange. */
    method WalAcknowledgeAdd(operation: U32) returns (r: Result<(), GuardError>)
      requires Valid()
      requires 1 <= operation <= |journal.journal.operations| ==>
                 var x := journal.journal.operations[operation - 1].resource; x in loose || x !in host.present || !Diverts(x)
      modifies journal, log
      ensures journal.journal.session == old(journal.journal).session
      ensures r.Err? ==> r.error.WalFailed?
      ensures Valid() && Extends(old(log.events), log.events)
      ensures r.Err? ==> journal.journal == old(journal.journal)
      ensures r.Ok? ==> 1 <= operation <= |old(journal.journal).operations| && journal.Synced() && journal.journal.phase.Preparing? &&
                        journal.journal.operations == WithState(old(journal.journal).operations, operation, Applied) &&
                        journal.journal.generation == old(journal.journal).generation + 1
      ensures old(journal.Synced()) && old(journal.journal).generation < U64_MAX && old(journal.journal).phase.Preparing? && Clear(old(journal.faults), 1) &&
              1 <= operation <= |old(journal.journal).operations| && old(journal.journal).operations[operation - 1].state.Planned? ==>
                r.Ok? && journal.faults == Rest(old(journal.faults), 1)
    {
      ghost var ops := journal.journal.operations;
      if 1 <= operation <= |ops| {
        forall x | InDoubt(ops, x) && ops[operation - 1].resource != x ensures InDoubt(WithState(ops, operation, Applied), x) {
          AppliedDoubts(ops, operation, x);
        }
      }
      var acknowledged := journal.AcknowledgeAdd(operation);
      CleanExtends(old(log.events), log.events, lost, lost);
      if acknowledged.Err? { return Err(WalFailed(acknowledged.error)); }
      return Ok(());
    }

    method WalPublish() returns (r: Result<(), GuardError>)
      requires Valid()
      modifies journal, log
      ensures journal.journal.session == old(journal.journal).session
      ensures r.Err? ==> r.error.WalFailed?
      ensures Valid() && Extends(old(log.events), log.events) && journal.journal.operations == old(journal.journal).operations
      ensures r.Ok? ==> journal.journal.phase.Active? && journal.Synced() && journal.journal.generation == old(journal.journal).generation + 1
      ensures r.Ok? ==> old(journal.journal).phase.Preparing?
      ensures r.Err? ==> journal.journal == old(journal.journal)
      ensures old(journal.Synced()) && old(journal.journal).generation < U64_MAX && old(journal.journal).phase.Preparing? && Clear(old(journal.faults), 1) &&
              (forall x :: !InDoubt(old(journal.journal).operations, x)) ==>
                r.Ok? && journal.faults == Rest(old(journal.faults), 1)
    {
      var published := journal.PublishActive();
      CleanExtends(old(log.events), log.events, lost, lost);
      if published.Err? { return Err(WalFailed(published.error)); }
      return Ok(());
    }

    method WalBeginRemove(resource: Resource) returns (r: Result<U32, GuardError>)
      requires Valid()
      modifies journal, log
      ensures Valid() && Extends(old(log.events), log.events) && journal.journal.operations == old(journal.journal).operations
      ensures r.Ok? ==> 1 <= r.value <= |journal.journal.operations| && journal.journal.operations[r.value - 1].resource == resource &&
                        journal.journal.operations[r.value - 1].state.Applied? && journal.journal.phase.Preparing?
      ensures old(journal.faults) == [] && old(journal.Synced()) && old(journal.journal).generation < U64_MAX &&
              HasApplied(old(journal.journal).operations, resource) && (old(journal.journal).phase.Active? || old(journal.journal).phase.Preparing?) ==>
                r.Ok? && journal.faults == [] && journal.Synced() &&
                journal.journal.generation == old(journal.journal).generation + (if old(journal.journal).phase.Active? then 1 else 0)
      ensures old(journal.journal).phase.Preparing? ==> journal.journal == old(journal.journal)
      ensures journal.journal.session == old(journal.journal).session
    {
      var operation := journal.BeginRemove(resource);
      CleanExtends(old(log.events), log.events, lost, lost);
      if operation.Err? { return Err(WalFailed(operation.error)); }
      return Ok(operation.value);
    }

    /** Only for an object that is gone. */
    method WalAcknowledgeRemove(operation: U32, resource: Resource) returns (r: Result<(), GuardError>)
      requires Valid() && resource !in host.present
      requires 1 <= operation <= |journal.journal.operations| && journal.journal.operations[operation - 1].resource == resource
      modifies journal, log
      ensures Valid() && Extends(old(log.events), log.events)
      ensures Fewer(old(journal.journal).operations, journal.journal.operations) && journal.journal.session == old(journal.journal).session
      ensures r.Ok? ==> journal.journal.operations == WithState(old(journal.journal).operations, operation, Removed) &&
                        journal.journal.phase == old(journal.journal).phase && (old(journal.Synced()) ==> journal.Synced())
      ensures old(journal.faults) == [] && old(journal.Synced()) && old(journal.journal).generation < U64_MAX && old(journal.journal).phase.Preparing? &&
              old(journal.journal).operations[operation - 1].state.Applied? ==>
                r.Ok? && journal.faults == [] && journal.journal.generation == old(journal.journal).generation + 1
    {
      var acknowledged := journal.AcknowledgeRemove(operation);
      CleanExtends(old(log.events), log.events, lost, lost);
      if acknowledged.Err? { return Err(WalFailed(acknowledged.error)); }
      return Ok(());
    }

    method HostRemove(resource: Resource) returns (ok: bool)
      requires Valid()
      modifies host`present, host`faults, log
      ensures Valid() && Extends(old(log.events), log.events) && old(host.present) - {resource} <= host.present <= old(host.present)
      ensures ok ==> resource !in host.present
      ensures old(host.faults) == [] ==> ok && host.faults == []
    {
      ok := host.Remove(resource);
      CleanExtends(old(log.events), log.events, lost, lost);
    }

    /** The rest of `armed`, which ends the construction: acknowledge the installed
        firewall and publish. */
    method Arm(operations: seq<U32>) returns (r: Result<(), GuardError>)
      requires Valid() && forall x :: x in host.present ==> !Diverts(x)
      modifies this`ambiguous, journal, log
      ensures Valid() && Extends(old(log.events), log.events)
      ensures r.Ok? ==> !ambiguous && journal.journal.phase.Active? && journal.Synced()
      ensures journal.journal.session == old(journal.journal).session
      ensures operations == [] && old(journal.Synced()) && old(journal.journal).generation < U64_MAX && old(journal.journal).phase.Preparing? &&
              Clear(old(journal.faults), 1) && (forall x :: !InDoubt(old(journal.journal).operations, x)) ==>
                r.Ok? && journal.faults == Rest(old(journal.faults), 1) && journal.journal.operations == old(journal.journal).operations &&
                journal.journal.generation == old(journal.journal).generation + 1
      ensures old(journal.Dependable()) && old(journal.journal).phase.Preparing? && old(journal.journal).generation + |operations| < U64_MAX &&
              Engages(old(journal.journal).operations, operations) ==>
                r.Ok? && journal.journal.operations == Engaged(old(journal.journal).operations, Elements(operations))
    {
      r := AcknowledgeAll(operations);
      if r.Ok? && Engages(old(journal.journal).operations, operations) { EngagedAll(old(journal.journal).operations, operations); }
      if r.Ok? { r := WalPublish(); }
      if r.Ok? { ambiguous := false; }
    }

    method AcknowledgeAll(operations: seq<U32>) returns (r: Result<(), GuardError>)
      requires Valid() && forall x :: x in host.present ==> !Diverts(x)
      modifies journal, log
      ensures Valid() && Extends(old(log.events), log.events)
      ensures journal.journal.session == old(journal.journal).session
      ensures operations == [] ==> r.Ok? && unchanged(journal)
      ensures old(journal.Dependable()) && old(journal.journal).phase.Preparing? && old(journal.journal).generation + |operations| < U64_MAX &&
              Engages(old(journal.journal).operations, operations) ==>
                r.Ok? && journal.Dependable() && journal.journal.phase.Preparing? && journal.journal.generation < U64_MAX &&
                journal.journal.operations == Engaged(old(journal.journal).operations, Elements(operations))
    {
      ghost var ops, start := journal.journal.operations, journal.journal.generation;
      ghost var easy := journal.Dependable() && journal.journal.phase.Preparing? && start + |operations| < U64_MAX && Engages(ops, operations);
      EngagedNone(ops);
      ghost var named: set<U32> := {};
      r := Ok(());
      for i := 0 to |operations|
        invariant Valid() && Extends(old(log.events), log.events) && r.Ok?
        invariant operations == [] ==> unchanged(journal)
        invariant journal.journal.session == old(journal.journal).session
        invariant named == Elements(operations[..i]) && (easy ==> Engaging(ops, named, start + i))
      {
        NamedNext(operations, i);
        if easy { NotYetNamed(ops, operations, i); }
        r := AcknowledgeOne(operations[i], easy, ops, named, start + i);
        if r.Err? { return; }
        named := named + {operations[i]};
      }
      assert operations[..|operations|] == operations;
    }

    ghost predicate Engaging(ops: seq<Record>, named: set<U32>, generation: nat)
      reads journal
    {
      journal.Dependable() && journal.journal.phase.Preparing? && journal.journal.operations == Engaged(ops, named) && journal.journal.generation == generation
    }

    method AcknowledgeOne(id: U32, ghost easy: bool, ghost ops: seq<Record>, ghost named: set<U32>, ghost generation: nat) returns (r: Result<(), GuardError>)
      requires Valid() && forall x :: x in host.present ==> !Diverts(x)
      requires easy ==> Engaging(ops, named, generation) && generation < U64_MAX && 1 <= id <= |ops| && ops[id - 1].state.Planned? && id !in named
      modifies journal, log
      ensures Valid() && Extends(old(log.events), log.events)
      ensures journal.journal.session == old(journal.journal).session
      ensures easy ==> r.Ok? && Engaging(ops, named + {id}, generation + 1)
    {
      if easy { EngagedNext(ops, named, id); }
      r := WalAcknowledgeAdd(id);
    }

    // ------------------------------------------------------------------- teardown

    /** Success ends the doubt; a failure that may have touched the host leaves it. */
    ghost predicate Telling(ok: bool, present0: set<Resource>, ambiguous0: bool)
      reads this, host
    {
      if ok then !ambiguous else ambiguous || (!ambiguous0 && host.present == present0)
    }

    /** `journaled_route_remove`, also the resolver's removal. */
    method JournaledRemove(resource: Resource) returns (r: Result<(), GuardError>)
      requires Valid()
      modifies this`ambiguous, host`present, host`faults, journal, log
      ensures Valid() && Extends(old(log.events), log.events)
      ensures old(host.present) - {resource} <= host.present <= old(host.present)
      ensures Fewer(old(journal.journal).operations, journal.journal.operations)
      ensures r.Ok? ==> resource !in host.present
      ensures old(CanTake(Now(), {resource})) ==> r.Ok? && Now() == Taken(old(Now()), {resource})
      // a failure after the host was touched leaves the owner in doubt
      ensures Telling(r.Ok?, old(host.present), old(ambiguous))
    {
      ghost var s := Now();
      if CanTake(s, {resource}) { TakeOne(s, resource); }
      var operation := WalBeginRemove(resource);
      if operation.Err? { return Err(operation.error); }
      r := RemoveAndClose(operation.value, resource, s);
    }

    /** The object goes, and then its record. */
    method RemoveAndClose(operation: U32, resource: Resource, ghost s: Snap) returns (r: Result<(), GuardError>)
      requires Valid() && 1 <= operation <= |journal.journal.operations|
      requires journal.journal.operations[operation - 1].resource == resource && journal.journal.operations[operation - 1].state.Applied?
      modifies this`ambiguous, host`present, host`faults, journal, log
      ensures Valid() && Extends(old(log.events), log.events)
      ensures old(host.present) - {resource} <= host.present <= old(host.present)
      ensures Fewer(old(journal.journal).operations, journal.journal.operations)
      ensures r.Ok? ==> resource !in host.present
      ensures CanTake(s, {resource}) && old(Now()) == Begun(s) ==> r.Ok? && Now() == Taken(s, {resource})
      ensures r.Err? <==> ambiguous
    {
      if CanTake(s, {resource}) && Now() == Begun(s) {
        TakeOne(s, resource);
        TakenOne(s, operation, resource);
      }
      var removed := RemoveRecorded(resource);
      if !removed { return Err(HostCommand); }
      r := CloseRecord(operation, resource);
    }

    method RemoveRecorded(resource: Resource) returns (ok: bool)
      requires Valid()
      modifies this`ambiguous, host`present, host`faults, log
      ensures Valid() && Extends(old(log.events), log.events) && old(host.present) - {resource} <= host.present <= old(host.present)
      ensures ok ==> resource !in host.present
      ensures old(host.faults) == [] ==> ok && host.faults == []
      ensures ambiguous
    {
      ok := HostRemove(resource);
      ambiguous := true;
    }

    /** The record of an object that is gone is closed, and the journal published. */
    method CloseRecord(operation: U32, resource: Resource) returns (r: Result<(), GuardError>)
      requires Valid() && resource !in host.present
      requires 1 <= operation <= |journal.journal.operations| && journal.journal.operations[operation - 1].resource == resource
      modifies this`ambiguous, journal, log
      ensures Valid() && Extends(old(log.events), log.events)
      ensures Fewer(old(journal.journal).operations, journal.journal.operations) && journal.journal.session == old(journal.journal).session
      ensures r.Ok? ==> !ambiguous && journal.journal.phase.Active? && journal.Synced() &&
                        journal.journal.operations == WithState(old(journal.journal).operations, operation, Removed)
      ensures old(journal.faults) == [] && old(journal.Synced()) && old(journal.journal).generation + 1 < U64_MAX && old(journal.journal).phase.Preparing? &&
              old(journal.journal).operations[operation - 1].state.Applied? && (forall x :: !InDoubt(old(journal.journal).operations, x)) ==>
                r.Ok? && journal.faults == [] && journal.journal.generation == old(journal.journal).generation + 2
      ensures r.Err? ==> ambiguous == old(ambiguous)
    {
      r := WalAcknowledgeRemove(operation, resource);
      if r.Ok? {
        RemovedNoDoubts(old(journal.journal).operations, operation);
        r := PublishAdded();
      }
    }

    /** The guards of objects that are gone are given up. */
    method ForgetRoutes()
      requires Valid() && RouteSet() !! host.present
      modifies this`routes
      ensures Valid() && routes.None?
    {
      routes := None;
    }

    method ForgetDns()
      requires Valid() && DnsSet() !! host.present
      modifies this`dns
      ensures Valid() && dns.None?
    {
      dns := None;
    }

    method ForgetBypasses()
      requires Valid() && BypassSet() !! host.present
      modifies this`bypass
      ensures Valid() && bypass.None?
    {
      bypass := None;
    }

    method ForgetSsh()
      requires Valid() && SshSet() !! host.present
      modifies this`ssh
      ensures Valid() && ssh.None?
    {
      ssh := None;
    }

    method RemoveRoutes(rs: seq<Resource>) returns (r: Result<(), GuardError>)
      requires Valid()
      modifies this`ambiguous, host`present, host`faults, journal, log
      ensures Valid() && Extends(old(log.events), log.events)
      ensures old(host.present) - Elements(rs) <= host.present <= old(host.present)
      ensures Fewer(old(journal.journal).operations, journal.journal.operations)
      ensures r.Ok? ==> host.present !! Elements(rs)
      ensures EachOnce(rs) && old(CanTake(Now(), Elements(rs))) ==> r.Ok? && Now() == Taken(old(Now()), Elements(rs))
    {
      ghost var s, easy, done := Now(), EachOnce(rs) && CanTake(Now(), Elements(rs)), {};
      if easy { TakenNone(s); }
      for i := 0 to |rs|
        invariant Valid() && Extends(old(log.events), log.events) && done == Elements(rs[..i])
        invariant s.present - done <= host.present <= s.present && host.present !! done
        invariant Fewer(old(journal.journal).operations, journal.journal.operations)
        invariant easy ==> Now() == Taken(s, done)
      {
        ElementsNext(rs, i);
        if easy { OnceNext(s, rs, i); }
        ghost var mid := host.present;
        r := JournaledRemove(rs[i]);
        GoneInTwo(s.present, mid, host.present, done, {rs[i]});
        if r.Err? { return; }
        done := done + {rs[i]};
      }
      assert rs[..|rs|] == rs;
      return Ok(());
    }

    method RemoveSplitRoutes() returns (r: Result<(), GuardError>)
      requires Valid()
      modifies this`ambiguous, this`routes, host`present, host`faults, journal, log
      ensures Valid() && Extends(old(log.events), log.events)
      ensures old(host.present) - old(RouteSet()) <= host.present <= old(host.present)
      ensures Fewer(old(journal.journal).operations, journal.journal.operations)
      ensures r.Ok? ==> routes.None? && host.present !! old(RouteSet())
      ensures old(routes).None? ==> r.Ok? && unchanged(host) && unchanged(journal) && ambiguous == old(ambiguous)
      ensures (old(routes).Some? ==> EachOnce(old(routes).value)) && old(CanTake(Now(), RouteSet())) ==> r.Ok? && Now() == Taken(old(Now()), old(RouteSet()))
    {
      if routes.None? {
        if CanTake(Now(), {}) { TakenNone(Now()); }
        return Ok(());
      }
      r := RemoveRoutes(routes.value);
      if r.Ok? { ForgetRoutes(); }
    }

    method RestoreDns() returns (r: Result<(), GuardError>)
      requires Valid()
      modifies this`ambiguous, this`dns, host`present, host`faults, journal, log
      ensures Valid() && Extends(old(log.events), log.events)
      ensures old(host.present) - old(DnsSet()) <= host.present <= old(host.present)
      ensures Fewer(old(journal.journal).operations, journal.journal.operations)
      ensures r.Ok? ==> dns.None? && host.present !! old(DnsSet())
      ensures old(dns).None? ==> r.Ok? && unchanged(host) && unchanged(journal) && ambiguous == old(ambiguous)
      ensures old(CanTake(Now(), DnsSet())) ==> r.Ok? && Now() == Taken(old(Now()), old(DnsSet()))
    {
      if dns.None? {
        if CanTake(Now(), {}) { TakenNone(Now()); }
        return Ok(());
      }
      r := JournaledRemove(dns.value);
      if r.Ok? { ForgetDns(); }
    }

    /** Every bypass is tried, also after a failure. */
    method RemoveEach(m: map<nat, Resource>) returns (failed: bool)
      requires Valid()
      modifies this`ambiguous, host`present, host`faults, journal, log
      ensures Valid() && Extends(old(log.events), log.events)
      ensures old(host.present) - m.Values <= host.present <= old(host.present)
      ensures Fewer(old(journal.journal).operations, journal.journal.operations)
      ensures !failed ==> host.present !! m.Values
      ensures m == map[] ==> !failed && unchanged(host) && unchanged(journal) && ambiguous == old(ambiguous)
      ensures OneToOne(m) && old(CanTake(Now(), m.Values)) ==> !failed && Now() == Taken(old(Now()), m.Values)
    {
      ghost var s, easy := Now(), OneToOne(m) && CanTake(Now(), m.Values);
      if easy { TakenNone(s); }
      failed := false;
      var rest := m.Keys;
      AllValues(m);
      while rest != {}
        invariant Valid() && Extends(old(log.events), log.events)
        invariant old(host.present) - m.Values <= host.present <= old(host.present)
        invariant Fewer(old(journal.journal).operations, journal.journal.operations)
        invariant rest <= m.Keys && (!failed ==> ValuesAt(m, m.Keys - rest) !! host.present)
        invariant m == map[] ==> !failed && unchanged(host) && unchanged(journal) && ambiguous == old(ambiguous)
        invariant easy ==> !failed && Now() == Taken(s, ValuesAt(m, m.Keys - rest))
      {
        var ip :| ip in rest;
        ValuesNext(m, rest, ip);
        if easy { OneToOneNext(s, m, rest, ip); }
        var removed := JournaledRemove(m[ip]);
        if removed.Err? { failed := true; }
        rest := rest - {ip};
      }
    }

    /** Every bypass is tried; one failure keeps the whole owner. */
    method RemoveBypasses() returns (r: Result<(), GuardError>)
      requires Valid()
      modifies this`ambiguous, this`bypass, host`present, host`faults, journal, log
      ensures Valid() && Extends(old(log.events), log.events)
      ensures old(host.present) - old(BypassSet()) <= host.present <= old(host.present)
      ensures Fewer(old(journal.journal).operations, journal.journal.operations)
      ensures r.Ok? ==> bypass.None? && host.present !! old(BypassSet())
      ensures old(bypass) == Some(map[]) ==> r.Ok? && unchanged(host) && unchanged(journal) && ambiguous == old(ambiguous)
      ensures (old(bypass).Some? ==> OneToOne(old(bypass).value)) && old(CanTake(Now(), BypassSet())) ==>
                r.Ok? && Now() == Taken(old(Now()), old(BypassSet()))
    {
      if bypass.None? {
        if CanTake(Now(), {}) { TakenNone(Now()); }
        return Ok(());
      }
      var failed := RemoveEach(bypass.value);
      if failed { return Err(HostCommand); }
      ForgetBypasses();
      return Ok(());
    }

    method RemoveSshBypass() returns (r: Result<(), GuardError>)
      requires Valid()
      modifies this`ambiguous, this`ssh, host`present, host`faults, journal, log
      ensures Valid() && Extends(old(log.events), log.events)
      ensures old(host.present) - old(SshSet()) <= host.present <= old(host.present)
      ensures Fewer(old(journal.journal).operations, journal.journal.operations)
      ensures r.Ok? ==> ssh.None? && host.present !! old(SshSet())
      ensures old(ssh).None? ==> r.Ok? && unchanged(host) && unchanged(journal) && ambiguous == old(ambiguous)
      ensures old(CanTake(Now(), SshSet())) ==> r.Ok? && Now() == Taken(old(Now()), old(SshSet()))
    {
      if ssh.None? {
        if CanTake(Now(), {}) { TakenNone(Now()); }
        return Ok(());
      }
      r := JournaledRemove(ssh.value);
      if r.Ok? { ForgetSsh(); }
    }

    /** No object is held twice. */
    ghost predicate HeldOnce()
      reads this
    {
      && (routes.Some? ==> EachOnce(routes.value)) && RouteSet() !! DnsSet() && RestOnce()
      && RouteSet() + DnsSet() !! BypassSet() + SshSet()
    }

    ghost predicate RestOnce()
      reads this
    {
      (bypass.Some? ==> OneToOne(bypass.value)) && BypassSet() !! SshSet()
    }

    /** Split routes, then the resolver. */
    method RemoveFirst(ghost s: Option<Snap>, ghost first: set<Resource>) returns (r: Result<(), GuardError>)
      requires Valid() && first == RouteSet() + DnsSet() && (s.Some? ==> s.value == Now() && HeldOnce() && CanTake(s.value, first))
      modifies this`ambiguous, this`routes, this`dns, host`present, host`faults, journal, log
      ensures Valid() && Extends(old(log.events), log.events)
      ensures old(host.present) - first <= host.present <= old(host.present)
      ensures Fewer(old(journal.journal).operations, journal.journal.operations)
      ensures r.Ok? ==> routes.None? && dns.None? && host.present !! first
      ensures s.Some? ==> r.Ok? && Now() == Taken(s.value, first)
    {
      if s.Some? { TakenMore(s.value, RouteSet(), DnsSet()); }
      r := RemoveSplitRoutes();
      if r.Ok? { r := RestoreDns(); }
    }

    /** Bypasses, then the SSH route. */
    method RemoveRest(ghost s: Option<Snap>, ghost second: set<Resource>) returns (r: Result<(), GuardError>)
      requires Valid() && second == BypassSet() + SshSet() && (s.Some? ==> s.value == Now() && RestOnce() && CanTake(s.value, second))
      modifies this`ambiguous, this`bypass, this`ssh, host`present, host`faults, journal, log
      ensures Valid() && Extends(old(log.events), log.events)
      ensures old(host.present) - second <= host.present <= old(host.present)
      ensures Fewer(old(journal.journal).operations, journal.journal.operations)
      ensures r.Ok? ==> bypass.None? && ssh.None? && host.present !! second
      ensures s.Some? ==> r.Ok? && Now() == Taken(s.value, second)
    {
      if s.Some? { TakenMore(s.value, BypassSet(), SshSet()); }
      r := RemoveBypasses();
      if r.Ok? { r := RemoveSshBypass(); }
    }

    /** Everything that diverts traffic, in removal order. */
    method RemoveDiverting(ghost c: Option<Course>) returns (r: Result<(), GuardError>)
      requires Valid() && (c.Some? ==> StartsAs(c.value) && Sound(c.value))
      modifies this`ambiguous, this`routes, this`dns, this`bypass, this`ssh, host`present, host`faults, journal, log
      ensures Valid() && Extends(old(log.events), log.events)
      ensures old(host.present) - old(Held()) <= host.present <= old(host.present)
      ensures Fewer(old(journal.journal).operations, journal.journal.operations)
      ensures r.Ok? ==> routes.None? && dns.None? && bypass.None? && ssh.None? && host.present !! old(Held())
      ensures c.Some? ==> r.Ok? && Now() == Taken(c.value.s, c.value.held)
    {
      ghost var first, second := RouteSet() + DnsSet(), BypassSet() + SshSet();
      Regroup(RouteSet(), DnsSet(), BypassSet(), SshSet());
      ghost var start, next: Option<Snap> := None, None;
      if c.Some? {
        OrderlyTakes(c.value, first, second);
        start, next := Some(c.value.s), Some(Taken(c.value.s, first));
      }
      r := RemoveBoth(start, next, first, second);
    }

    method RemoveBoth(ghost start: Option<Snap>, ghost next: Option<Snap>, ghost first: set<Resource>, ghost second: set<Resource>)
      returns (r: Result<(), GuardError>)
      requires Valid() && first == RouteSet() + DnsSet() && second == BypassSet() + SshSet() && (next.Some? ==> start.Some?)
      requires start.Some? ==> start.value == Now() && HeldOnce() && CanTake(start.value, first)
      requires next.Some? ==> next.value == Taken(start.value, first) && CanTake(next.value, second)
      modifies this`ambiguous, this`routes, this`dns, this`bypass, this`ssh, host`present, host`faults, journal, log
      ensures Valid() && Extends(old(log.events), log.events)
      ensures old(host.present) - (first + second) <= host.present <= old(host.present)
      ensures Fewer(old(journal.journal).operations, journal.journal.operations)
      ensures r.Ok? ==> routes.None? && dns.None? && bypass.None? && ssh.None? && host.present !! first + second
      ensures next.Some? ==> r.Ok? && Now() == Taken(next.value, second)
    {
      r := RemoveFirst(start, first);
      ghost var mid := host.present;
      if r.Ok? {
        assert BypassSet() == old(BypassSet()) && SshSet() == old(SshSet());
        assert next.Some? ==> next.value == Now();
        r := RemoveRest(next, second);
      }
      GoneInTwo(old(host.present), mid, host.present, first, second);
    }

    lemma OrderlyTakes(c: Course, first: set<Resource>, second: set<Resource>)
      requires StartsAs(c) && Sound(c) && first == RouteSet() + DnsSet() && second == BypassSet() + SshSet()
      ensures CanTake(c.s, first) && CanTake(Taken(c.s, first), second) && Taken(Taken(c.s, first), second) == Taken(c.s, c.held)
    {
      Regroup(RouteSet(), DnsSet(), BypassSet(), SshSet());
      TakenMore(c.s, first, second);
    }

    ghost predicate NothingHeld()
      reads this
    {
      routes.None? && dns.None? && bypass == Some(map[]) && ssh.None?
    }

    ghost function Fields(): Guards
      reads this, host
    {
      Guards(shutdownComplete, routes, dns, bypass, ssh, tun, tunRemove, killSwitch, host.impostors)
    }

    /** The course starts here. */
    ghost predicate StartsAs(c: Course)
      reads this, host, journal
    {
      && !shutdownComplete && tun == Some(c.tun) && tunRemove.None? && killSwitch == Some(c.parts) && host.impostors == []
      && HeldOnce() && c.s == Now() && c.held == Held()
    }

    /** Every held object, the TUN and every firewall part has a live record, no object is
        held twice, and nothing will fail. */
    ghost predicate Orderly()
      reads this, host, journal
    {
      tun.Some? && killSwitch.Some? && var c := Course(Now(), Held(), tun.value, killSwitch.value); StartsAs(c) && Sound(c)
    }

    /** Nothing else has a live record. */
    ghost predicate Complete()
      reads this, journal
    {
      tun.Some? && killSwitch.Some? && LiveSet(journal.journal.operations) <= Held() + ({tun.value} + killSwitch.value)
    }

    /** What was held is gone, and the removal of the TUN is recorded. */
    ghost predicate PreparedAs(c: Course)
      reads this, host, journal
    {
      && tunRemove.Some? && Fields() == Bare(c.tun, tunRemove, c.parts) && journal.faults == host.faults == [] && journal.Synced()
      && journal.journal == Opened(LeftOf(c)) && 1 <= tunRemove.value <= |LeftOf(c).operations|
      && LeftOf(c).operations[tunRemove.value - 1] == Record(tunRemove.value, Applied, c.tun)
    }

    /** Only the TUN is still to be confirmed gone. */
    ghost predicate Ending()
      reads this, host, journal
    {
      && tun.Some? && tunRemove.Some? && killSwitch.Some? && Fields() == Bare(tun.value, tunRemove, killSwitch.value)
      && journal.faults == host.faults == [] && journal.Synced() && Endable(journal.journal, tunRemove.value, tun.value, killSwitch.value)
    }

    /** `prepare_tun_close`: everything ranked ahead of the TUN goes, then the TUN's
        removal is recorded. */
    method PrepareTunClose(ghost c: Option<Course>) returns (r: Result<(), GuardError>)
      requires Valid() && (c.Some? ==> StartsAs(c.value) && Sound(c.value))
      modifies this`ambiguous, this`routes, this`dns, this`bypass, this`ssh, this`tunRemove, host`present, host`faults, journal, log
      ensures Valid() && Extends(old(log.events), log.events)
      ensures old(host.present) - old(Held()) <= host.present <= old(host.present)
      ensures Fewer(old(journal.journal).operations, journal.journal.operations)
      ensures r.Ok? && !shutdownComplete ==> routes.None? && dns.None? && bypass.None? && ssh.None? && host.present !! old(Held())
      ensures !shutdownComplete && old(ambiguous) ==> r == Err(AmbiguousState) && unchanged(this) && Now() == old(Now())
      ensures c.Some? ==> r.Ok? && PreparedAs(c.value)
    {
      if shutdownComplete { return Ok(()); }
      if ambiguous { return Err(AmbiguousState); }
      r := ClearAndRecord(c);
    }

    method ClearAndRecord(ghost c: Option<Course>) returns (r: Result<(), GuardError>)
      requires Valid() && (c.Some? ==> StartsAs(c.value) && Sound(c.value))
      modifies this`ambiguous, this`routes, this`dns, this`bypass, this`ssh, this`tunRemove, host`present, host`faults, journal, log
      ensures Valid() && Extends(old(log.events), log.events)
      ensures old(host.present) - old(Held()) <= host.present <= old(host.present)
      ensures Fewer(old(journal.journal).operations, journal.journal.operations)
      ensures r.Ok? ==> routes.None? && dns.None? && bypass.None? && ssh.None? && host.present !! old(Held())
      ensures c.Some? ==> r.Ok? && PreparedAs(c.value)
    {
      r := RemoveDiverting(c);
      if r.Ok? { r := RecordCleared(c); }
    }

    /** Removals can be recorded one after the other. */
    ghost predicate Smooth()
      reads journal
    {
      && journal.faults == [] && journal.Synced()
      && (if journal.journal.phase.Active? then journal.journal.generation + 1 < U64_MAX
          else journal.journal.phase.Preparing? && journal.journal.generation < U64_MAX)
    }

    method BeginPart(x: Resource) returns (r: Result<U32, GuardError>)
      requires Valid()
      modifies journal, log
      ensures Valid() && Extends(old(log.events), log.events) && journal.journal.operations == old(journal.journal).operations
      ensures r.Ok? ==> 1 <= r.value <= |journal.journal.operations| && journal.journal.operations[r.value - 1].resource == x &&
                        journal.journal.operations[r.value - 1].state.Applied? && journal.journal.phase.Preparing?
      ensures old(Smooth()) && HasApplied(old(journal.journal).operations, x) ==> r.Ok? && Smooth() && journal.journal == Opened(old(journal.journal))
    {
      r := WalBeginRemove(x);
    }

    method RecordCleared(ghost c: Option<Course>) returns (r: Result<(), GuardError>)
      requires Valid()
      requires c.Some? ==> Sound(c.value) && Fields() == Bare(c.value.tun, None, c.value.parts) && Now() == Taken(c.value.s, c.value.held)
      modifies this`ambiguous, this`tunRemove, journal, log
      ensures Valid() && Extends(old(log.events), log.events) && journal.journal.operations == old(journal.journal).operations
      ensures c.Some? ==> r.Ok? && PreparedAs(c.value)
    {
      if c.Some? { OrderlyTun(c.value); }
      r := RecordTunRemoval();
    }

    method RecordTunRemoval() returns (r: Result<(), GuardError>)
      requires Valid()
      modifies this`ambiguous, this`tunRemove, journal, log
      ensures Valid() && Extends(old(log.events), log.events) && journal.journal.operations == old(journal.journal).operations
      ensures r.Ok? && tun.Some? ==>
                tunRemove.Some? && journal.journal.phase.Preparing? && journal.journal.operations[tunRemove.value - 1] == Record(tunRemove.value, Applied, tun.value)
      ensures old(Smooth()) && tun.Some? && old(tunRemove).None? && HasApplied(old(journal.journal).operations, tun.value) ==>
                r.Ok? && Smooth() && journal.journal == Opened(old(journal.journal))
    {
      if tun.None? { return Ok(()); }
      if tunRemove.Some? { return Err(AlreadyPrepared); }
      var operation := BeginPart(tun.value);
      if operation.Err? { return Err(operation.error); }
      ambiguous, tunRemove := true, Some(operation.value);
      return Ok(());
    }

    /** The journal can be marked as in conflict, or is. */
    ghost predicate Sealable()
      reads journal
    {
      journal.journal.phase.Conflict? || (journal.Dependable() && journal.journal.generation < U64_MAX)
    }

    /** The next start will refuse to recover: the disk says so. */
    ghost predicate Sealed()
      reads journal
    {
      journal.journal.phase.Conflict? && journal.Synced()
    }

    method WalConflict() returns (r: Result<(), GuardError>)
      requires Valid()
      modifies journal, log
      ensures Valid() && Extends(old(log.events), log.events) && journal.journal.operations == old(journal.journal).operations
      ensures r.Ok? ==> journal.journal.phase.Conflict? && (old(journal.Synced()) ==> journal.Synced())
      ensures old(Sealable()) ==> r.Ok?
      ensures old(journal.Dependable()) && r.Err? ==> journal.journal.generation == U64_MAX
    {
      var marked := journal.MarkConflict();
      CleanExtends(old(log.events), log.events, lost, lost);
      if marked.Err? { return Err(WalFailed(marked.error)); }
      return Ok(());
    }

    method LookAtTun(resource: Resource) returns (view: TunView)
      requires Valid()
      modifies host`impostors, log
      ensures Valid() && Extends(old(log.events), log.events)
      ensures view.Gone? ==> resource !in host.present && TunSeenAbsent in log.events
      ensures old(host.impostors) == [] ==> host.impostors == [] && (resource !in host.present ==> view.Gone?)
      ensures view == if old(host.impostors) != [] && old(host.impostors)[0] then Changed else if resource in host.present then Present else Gone
    {
      view := host.InspectTun(resource);
      CleanExtends(old(log.events), log.events, lost, lost);
      if view.Gone? { assert log.events[|old(log.events)|] == TunSeenAbsent; }
    }

    lemma SeenStays(before: seq<Event>)
      requires TunSeenAbsent in before && Extends(before, log.events)
      ensures TunSeenAbsent in log.events
    {
      var i :| 0 <= i < |before| && before[i] == TunSeenAbsent;
      assert log.events[i] == TunSeenAbsent;
    }

    /** Another interface will answer for the TUN at the next look. */
    ghost predicate Imposed()
      reads host
    {
      host.impostors != [] && host.impostors[0]
    }

    /** The TUN must be seen gone before its record is closed: while it is there nothing
        happens, and another interface in its place is a conflict. */
    method ConfirmTunGone() returns (r: Result<(), GuardError>)
      requires Valid()
      modifies this`ambiguous, this`tunRemove, this`tun, host`impostors, journal, log
      ensures Valid() && Extends(old(log.events), log.events)
      ensures Fewer(old(journal.journal).operations, journal.journal.operations)
      ensures r.Ok? ==> TunSeenAbsent in log.events && journal.journal.phase.Active? && journal.Synced()
      ensures r.Ok? ==> old(tunRemove).Some? && journal.journal.operations == WithState(old(journal.journal).operations, old(tunRemove).value, Removed)
      ensures old(tun).None? || old(tunRemove).None? ==> r == Err(NotPrepared) && journal.journal == old(journal.journal)
      ensures old(tun).Some? && old(tunRemove).Some? && old(Imposed()) ==> r.Err? && (old(Sealable()) ==> r == Err(TunConflict) && journal.journal.phase.Conflict?)
      ensures old(tun).Some? && old(tunRemove).Some? && !old(Imposed()) && old(tun).value in host.present ==>
                r == Err(TunSurvives) && journal.journal == old(journal.journal) && journal.disk == old(journal.disk)
      ensures old(Ending()) && old(tun).value !in host.present ==>
                r.Ok? && Releasable() && LiveSet(journal.journal.operations) == LiveSet(old(journal.journal).operations) - {old(tun).value}
    {
      if tun.None? || tunRemove.None? { return Err(NotPrepared); }
      var view := LookAtTun(tun.value);
      match view
      case Present => r := Err(TunSurvives);
      case Changed =>
        r := WalConflict();
        if r.Ok? { r := Err(TunConflict); }
      case Gone =>
        r := CloseTunRecord();
    }

    /** The record of a TUN that was seen gone is closed. */
    method CloseTunRecord() returns (r: Result<(), GuardError>)
      requires Valid() && tun.Some? && tunRemove.Some? && tun.value !in host.present && TunSeenAbsent in log.events
      modifies this`ambiguous, this`tunRemove, this`tun, journal, log
      ensures Valid() && Extends(old(log.events), log.events) && TunSeenAbsent in log.events
      ensures Fewer(old(journal.journal).operations, journal.journal.operations)
      ensures r.Ok? ==> journal.journal.phase.Active? && journal.Synced() &&
                        journal.journal.operations == WithState(old(journal.journal).operations, old(tunRemove).value, Removed)
      ensures old(Ending()) ==>
                r.Ok? && Releasable() && LiveSet(journal.journal.operations) == LiveSet(old(journal.journal).operations) - {old(tun).value}
    {
      if Ending() { EndingNext(journal.journal, tunRemove.value, tun.value, killSwitch.value); }
      r := CloseRecord(tunRemove.value, tun.value);
      SeenStays(old(log.events));
      if r.Ok? { tunRemove, tun := None, None; }
    }

    method BeginNext(operations: map<Resource, U32>, x: Resource, ghost done: set<Resource>) returns (r: Result<map<Resource, U32>, GuardError>)
      requires Valid() && AllAcking(journal.journal.operations, done, operations)
      modifies journal, log
      ensures Valid() && Extends(old(log.events), log.events) && journal.journal.operations == old(journal.journal).operations
      ensures r.Ok? ==> AllAcking(journal.journal.operations, done + {x}, r.value)
      ensures old(Smooth()) && HasApplied(old(journal.journal).operations, x) ==> r.Ok? && Smooth() && journal.journal == Opened(old(journal.journal))
    {
      var operation := BeginPart(x);
      if operation.Err? { return Err(operation.error); }
      AckingMore(journal.journal.operations, done, operations, x, operation.value);
      return Ok(operations[x := operation.value]);
    }

    method BeginFirewallRemoval(parts: set<Resource>) returns (r: Result<map<Resource, U32>, GuardError>)
      requires Valid()
      modifies journal, log
      ensures Valid() && Extends(old(log.events), log.events) && journal.journal.operations == old(journal.journal).operations
      ensures r.Ok? ==> AllAcking(journal.journal.operations, parts, r.value)
      ensures old(Smooth()) && (forall x :: x in parts ==> HasApplied(old(journal.journal).operations, x)) ==>
                r.Ok? && Smooth() && (parts != {} ==> journal.journal == Opened(old(journal.journal)))
    {
      ghost var j0, easy := journal.journal, Smooth() && forall x :: x in parts ==> HasApplied(journal.journal.operations, x);
      var operations: map<Resource, U32> := map[];
      var rest := parts;
      while rest != {}
        invariant Valid() && Extends(old(log.events), log.events) && rest <= parts
        invariant journal.journal.operations == j0.operations && AllAcking(j0.operations, parts - rest, operations)
        invariant easy ==> Smooth() && journal.journal == if rest == parts then j0 else Opened(j0)
      {
        var x :| x in rest;
        assert parts - (rest - {x}) == (parts - rest) + {x};
        r := BeginNext(operations, x, parts - rest);
        if r.Err? { return; }
        operations, rest := r.value, rest - {x};
      }
      assert parts - {} == parts;
      return Ok(operations);
    }

    /** The removal of one part is recorded. */
    method AcknowledgePart(rest: set<Resource>, operations: map<Resource, U32>, x: Resource, ghost after: set<Resource>) returns (r: Result<(), GuardError>)
      requires Valid() && x in rest && x !in host.present && rest <= operations.Keys && Named(journal.journal.operations, operations.Keys, operations)
      modifies journal, log
      ensures Valid() && Extends(old(log.events), log.events) && Fewer(old(journal.journal).operations, journal.journal.operations)
      ensures old(Acknowledging(rest, operations, after)) ==> r.Ok? && Acknowledging(rest - {x}, operations, after)
    {
      if Acknowledging(rest, operations, after) { AckingNext(journal.journal, rest, operations, x, after); }
      r := WalAcknowledgeRemove(operations[x], x);
    }

    ghost predicate Acknowledging(rest: set<Resource>, operations: map<Resource, U32>, after: set<Resource>)
      reads journal
    {
      journal.faults == [] && journal.Synced() && Acking(journal.journal, rest, operations, after)
    }

    method AcknowledgeFirewall(parts: set<Resource>, operations: map<Resource, U32>, ghost after: set<Resource>) returns (r: Result<(), GuardError>)
      requires Valid() && parts !! host.present && operations.Keys == parts && Named(journal.journal.operations, operations.Keys, operations)
      modifies journal, log
      ensures Valid() && Extends(old(log.events), log.events)
      ensures old(Acknowledging(parts, operations, after)) ==> r.Ok? && Acknowledging({}, operations, after)
    {
      var rest := parts;
      while rest != {}
        invariant Valid() && Extends(old(log.events), log.events) && rest <= parts && Named(journal.journal.operations, operations.Keys, operations)
        invariant old(Acknowledging(parts, operations, after)) ==> Acknowledging(rest, operations, after)
      {
        var x :| x in rest;
        r := AcknowledgePart(rest, operations, x, after);
        if r.Err? { return; }
        rest := rest - {x};
      }
      return Ok(());
    }

    /** What remains to divert traffic when nothing is held or in doubt was lost. */
    lemma OnlyLostLeft()
      requires Valid() && killSwitch.Some? && loose == {} && routes.None? && dns.None? && bypass.None? && ssh.None?
      requires forall x :: !InDoubt(journal.journal.operations, x)
      ensures forall r :: r in host.present && Diverts(r) ==> r in lost
    {
      assert Held() == {};
    }

    /** The records of the firewall can be closed, and nothing will fail. */
    ghost predicate Releasable()
      reads this, host, journal
    {
      && journal.faults == [] && host.faults == [] && journal.Synced() && journal.journal.phase.Active? && killSwitch.Some? && killSwitch.value != {}
      && journal.journal.generation + |killSwitch.value| + 4 < U64_MAX && (forall x :: x in killSwitch.value ==> HasApplied(journal.journal.operations, x))
      && forall x :: !InDoubt(journal.journal.operations, x)
    }

    /** The journal can be closed unless something is still recorded. */
    ghost predicate Published(live: set<Resource>)
      reads journal
    {
      journal.faults == [] && journal.Synced() && journal.journal.phase.Active? && journal.journal.generation < U64_MAX && LiveSet(journal.journal.operations) == live
    }

    /** The only place where the firewall is released. */
    method ReleaseKillSwitch() returns (r: Result<(), GuardError>)
      requires Valid() && killSwitch.Some? && loose == {} && TunSeenAbsent in log.events
      requires routes.None? && dns.None? && bypass.None? && ssh.None? && journal.journal.phase.Active?
      modifies this`ambiguous, this`killSwitch, host, journal, log
      ensures Valid() && ReleasesOnly(old(log.events), log.events, old(host.present))
      ensures old(Releasable()) ==> Released(old(log.events), log.events) && r.Ok? && Published(LiveSet(old(journal.journal).operations) - old(killSwitch).value)
    {
      ghost var j0, parts := journal.journal, killSwitch.value;
      var operations := BeginFirewallRemoval(killSwitch.value);
      if operations.Err? { return Err(operations.error); }
      AckingNamed(journal.journal.operations, parts, operations.value);
      if old(Releasable()) { ReleasableNext(j0, parts, operations.value); }
      SeenStays(old(log.events));
      ghost var before := log.events;
      r := ReleaseRecorded(operations.value, LiveSet(j0.operations) - parts);
      ReleasesThrough(old(log.events), before, log.events, old(host.present));
    }

    /** The firewall is released, and then its records are closed. */
    method ReleaseRecorded(operations: map<Resource, U32>, ghost after: set<Resource>) returns (r: Result<(), GuardError>)
      requires Valid() && killSwitch.Some? && loose == {} && TunSeenAbsent in log.events
      requires routes.None? && dns.None? && bypass.None? && ssh.None? && forall x :: !InDoubt(journal.journal.operations, x)
      requires operations.Keys == killSwitch.value && Named(journal.journal.operations, operations.Keys, operations)
      modifies this`ambiguous, this`killSwitch, host, journal, log
      ensures Valid() && ReleasesOnly(old(log.events), log.events, old(host.present)) && Released(old(log.events), log.events)
      ensures old(host.faults) == [] && old(Acknowledging(killSwitch.value, operations, after)) ==> r.Ok? && Published(after)
    {
      var parts := killSwitch.value;
      ambiguous := true;
      ghost var before := log.events;
      OnlyLostLeft();
      CleanRelease(log.events, host.present, lost);
      var released := host.ReleaseFirewall(parts);
      if !released {
        ReleasedHere(before, before, log.events, old(host.present));
        return Err(HostCommand);
      }
      r := RetireFirewall(parts, operations, after);
      ReleasedHere(before, before, log.events, old(host.present));
    }

    /** The records of the released firewall are closed. */
    method RetireFirewall(parts: set<Resource>, operations: map<Resource, U32>, ghost after: set<Resource>) returns (r: Result<(), GuardError>)
      requires Valid() && parts !! host.present && operations.Keys == parts && Named(journal.journal.operations, operations.Keys, operations)
      modifies this`ambiguous, this`killSwitch, journal, log
      ensures Valid() && Extends(old(log.events), log.events)
      ensures old(Acknowledging(parts, operations, after)) ==> r.Ok? && Published(after)
    {
      r := AcknowledgeFirewall(parts, operations, after);
      if r.Ok? { r := PublishRetired(operations, after); }
    }

    method PublishRetired(ghost operations: map<Resource, U32>, ghost after: set<Resource>) returns (r: Result<(), GuardError>)
      requires Valid()
      modifies this`ambiguous, this`killSwitch, journal, log
      ensures Valid() && Extends(old(log.events), log.events)
      ensures old(Acknowledging({}, operations, after)) ==> r.Ok? && Published(after)
    {
      r := WalPublish();
      if r.Ok? { ambiguous, killSwitch := false, None; }
    }

    method RemoveJournal() returns (r: Result<(), GuardError>)
      requires Valid()
      modifies this`shutdownComplete, journal, log
      ensures Valid() && Extends(old(log.events), log.events)
      ensures r.Ok? ==> journal.disk == None && host.present == {}
      ensures old(Published(LiveSet(journal.journal.operations))) ==> (r.Ok? <==> LiveSet(old(journal.journal).operations) == {})
    {
      NothingRecorded(journal.journal.operations);
      var cleaning := journal.BeginCleaning();
      CleanExtends(old(log.events), log.events, lost, lost);
      if cleaning.Err? { return Err(WalFailed(cleaning.error)); }
      ghost var before := log.events;
      var removed := journal.RemoveCompletedFile();
      CleanExtends(before, log.events, lost, lost);
      if removed.Err? { return Err(WalFailed(removed.error)); }
      shutdownComplete := true;
      return Ok(());
    }

    /** `finish_after_tun_close`. A release finds exactly what was there, and all of it has
        a live record. */
    method FinishAfterTunClose() returns (r: Result<(), GuardError>)
      requires Valid() && loose == {}
      modifies this`ambiguous, this`tunRemove, this`tun, this`killSwitch, this`shutdownComplete, host, journal, log
      ensures Valid() && ReleasesOnly(old(log.events), log.events, old(host.present)) && (old(shutdownComplete) ==> shutdownComplete)
      ensures Released(old(log.events), log.events) ==>
                !old(shutdownComplete) && forall x :: x in old(host.present) ==> HasLive(old(journal.journal).operations, x)
      ensures Released(old(log.events), log.events) ==> forall x :: !InDoubt(old(journal.journal).operations, x)
      ensures r.Ok? && !old(shutdownComplete) ==> journal.disk == None && host.present == {}
      ensures !old(shutdownComplete) && old(tun).Some? && old(tunRemove).Some? && old(Imposed()) ==>
                r.Err? && (old(Sealable()) ==> r == Err(TunConflict) && journal.journal.phase.Conflict?)
      ensures old(Ending()) && old(tun).value !in old(host.present) ==>
                Released(old(log.events), log.events) &&
                (r.Ok? <==> LiveSet(old(journal.journal).operations) - {old(tun).value} <= old(killSwitch).value)
    {
      if shutdownComplete { return Ok(()); }
      ghost var ops := journal.journal.operations;
      r := ConfirmTunGone();
      if r.Err? { return; }
      if routes.Some? || bypass.Some? || ssh.Some? || dns.Some? { return Err(Survivor); }
      ghost var mid := log.events;
      forall x | x in host.present ensures HasLive(ops, x) {
        FewerLive(ops, journal.journal.operations, x);
      }
      forall x ensures !InDoubt(ops, x) {
        if InDoubt(ops, x) { FewerDoubts(ops, journal.journal.operations, x); }
      }
      r := ReleaseAndClose();
      ReleasesThrough(old(log.events), mid, log.events, old(host.present));
    }

    /** The end of the teardown, with the TUN confirmed gone. */
    method ReleaseAndClose() returns (r: Result<(), GuardError>)
      requires Valid() && loose == {} && TunSeenAbsent in log.events && !shutdownComplete
      requires routes.None? && dns.None? && bypass.None? && ssh.None? && journal.journal.phase.Active?
      modifies this`ambiguous, this`killSwitch, this`shutdownComplete, host, journal, log
      ensures Valid() && ReleasesOnly(old(log.events), log.events, old(host.present))
      ensures r.Ok? ==> journal.disk == None && host.present == {}
      ensures old(Releasable()) ==>
                Released(old(log.events), log.events) &&
                (r.Ok? <==> LiveSet(old(journal.journal).operations) <= old(killSwitch).value)
    {
      if killSwitch.Some? {
        r := ReleaseKillSwitch();
        if r.Err? { return; }
      }
      ghost var late := log.events;
      if old(Releasable()) { NothingLeft(LiveSet(old(journal.journal).operations), old(killSwitch).value); }
      r := RemoveJournal();
      LateReleases(old(log.events), late, log.events, old(host.present));
    }

    /** The TUN is closed, and then the second half; a release finds what was `left`. */
    method CloseAndFinish(ghost c: Option<Course>) returns (r: Result<(), GuardError>, ghost left: set<Resource>)
      requires Valid() && loose == {} && (c.Some? ==> Sound(c.value) && PreparedAs(c.value))
      modifies this`ambiguous, this`tunRemove, this`tun, this`killSwitch, this`shutdownComplete, host, journal, log
      ensures Valid() && old(host.present) - (if old(tun).Some? then {old(tun).value} else {}) <= left <= old(host.present)
      ensures ReleasesOnly(old(log.events), log.events, left) && (old(shutdownComplete) ==> shutdownComplete)
      ensures Released(old(log.events), log.events) ==> !old(shutdownComplete) && forall x :: x in left ==> HasLive(old(journal.journal).operations, x)
      ensures Released(old(log.events), log.events) ==> forall x :: !InDoubt(old(journal.journal).operations, x)
      ensures r.Ok? && !old(shutdownComplete) ==> journal.disk == None && host.present == {}
      ensures c.Some? ==> Released(old(log.events), log.events) &&
                          (r.Ok? <==> LiveSet(c.value.s.journal.operations) <= c.value.held + ({c.value.tun} + c.value.parts))
    {
      if c.Some? { EndingNow(c.value); }
      CloseTun();
      left := host.present;
      ghost var mid := log.events;
      r := FinishAfterTunClose();
      ReleasesThrough(old(log.events), mid, log.events, left);
    }

    lemma EndingNow(c: Course)
      requires Sound(c) && PreparedAs(c)
      ensures Ending()
      ensures LiveSet(journal.journal.operations) - {tun.value} <= killSwitch.value <==> LiveSet(c.s.journal.operations) <= c.held + ({c.tun} + c.parts)
    {
      OrderlyEnd(c, tunRemove.value);
      CoveredBy(LiveSet(c.s.journal.operations), c.held, c.tun, c.parts);
    }

    /** `close_after_sessions`: the only caller of the two halves. A release finds exactly
        the firewall and the diverting objects that no guard held at the call; with every
        live record of a route or exchange held by a guard, none of the latter. When nothing
        fails, the firewall is released, and the host and the disk end empty if and only if
        nothing but what is held has a live record. */
    method CloseAfterSessions() returns (r: Result<(), GuardError>)
      requires Valid() && loose == {}
      modifies this, host, journal, log
      ensures Valid() && loose == {} && lost == old(lost) && |old(log.events)| <= |log.events| && (old(shutdownComplete) ==> shutdownComplete)
      ensures forall i, x: Resource :: |old(log.events)| <= i < |log.events| && log.events[i].FirewallReleased? && !x.Tun? ==>
                (x in log.events[i].present <==> x in old(host.present) && x !in old(Held()))
      ensures old(Census()) ==> forall i, x :: |old(log.events)| <= i < |log.events| && log.events[i].FirewallReleased? && Diverts(x) ==>
                x !in log.events[i].present
      // a planned record, as a failed set-up command leaves it, rules a release out
      ensures Released(old(log.events), log.events) ==> forall x :: !InDoubt(old(journal.journal).operations, x)
      ensures r.Ok? && !old(shutdownComplete) ==> journal.disk == None && host.present == {}
      // an owner in doubt does not begin to close
      ensures !old(shutdownComplete) && old(ambiguous) ==> r == Err(AmbiguousState) && unchanged(this) && Now() == old(Now()) && Extends(old(log.events), log.events)
      ensures old(Orderly()) ==> Released(old(log.events), log.events) && (r.Ok? <==> old(Complete()))
    {
      ghost var c := if Orderly() then Some(Course(Now(), Held(), tun.value, killSwitch.value)) else None;
      ghost var left;
      r, left := CloseBothHalves(c);
    }

    /** The two halves; a release finds what was `left`. */
    method CloseBothHalves(ghost c: Option<Course>) returns (r: Result<(), GuardError>, ghost left: set<Resource>)
      requires Valid() && loose == {} && (c.Some? ==> StartsAs(c.value) && Sound(c.value))
      modifies this, host, journal, log
      ensures Valid() && loose == {} && lost == old(lost) && (old(shutdownComplete) ==> shutdownComplete)
      ensures ReleasesOnly(old(log.events), log.events, left)
      ensures Released(old(log.events), log.events) ==>
                && (forall x: Resource :: !x.Tun? ==> (x in left <==> x in old(host.present) && x !in old(Held())))
                && (forall x :: x in left ==> HasLive(old(journal.journal).operations, x)) && forall x :: !InDoubt(old(journal.journal).operations, x)
      ensures r.Ok? && !old(shutdownComplete) ==> journal.disk == None && host.present == {}
      ensures !old(shutdownComplete) && old(ambiguous) ==> r == Err(AmbiguousState) && unchanged(this) && Now() == old(Now()) && Extends(old(log.events), log.events)
      ensures c.Some? ==> Released(old(log.events), log.events) &&
                          (r.Ok? <==> LiveSet(c.value.s.journal.operations) <= c.value.held + ({c.value.tun} + c.value.parts))
    {
      ghost var ops := journal.journal.operations;
      left := {};
      r := PrepareTunClose(c);
      if r.Ok? {
        ghost var mid, recorded := log.events, journal.journal.operations;
        r, left := CloseAndFinish(c);
        ReleasesThrough(old(log.events), mid, log.events, left);
        if Released(mid, log.events) { LeftLive(ops, recorded, left); }
      }
    }

    method CloseTun()
      requires Valid()
      modifies host, log
      ensures Valid() && old(host.present) - (if tun.Some? then {tun.value} else {}) <= host.present <= old(host.present)
      ensures Extends(old(log.events), log.events)
      ensures old(Ending()) ==> Ending() && tun.value !in host.present
    {
      if tun.Some? {
        host.CloseTun(tun.value);
        CleanExtends(old(log.events), log.events, lost, lost);
      }
    }

    // ------------------------------------------------------------- giving up instead

    /** `seal_fail_closed`: the host is not touched and the firewall stays. */
    method SealFailClosed() returns (r: Result<(), GuardError>)
      requires Valid()
      modifies this`killSwitch, journal, log
      ensures Valid() && host.present == old(host.present) && Extends(old(log.events), log.events)
      ensures r.Ok? ==> journal.journal.phase.Conflict? && (old(journal.Synced()) ==> Sealed())
      ensures !old(shutdownComplete) ==> killSwitch.None?
      ensures old(shutdownComplete) ==> r == Err(Refused) && unchanged(this) && unchanged(journal)
      ensures !old(shutdownComplete) && old(Sealable()) ==> r.Ok?
    {
      if shutdownComplete { return Err(Refused); }
      killSwitch := None;
      r := WalConflict();
    }

    /** `preserve_incomplete_state_for_restart_recovery`: guards are forgotten, never run. */
    method HandOff() returns (r: Result<(), GuardError>)
      requires Valid() && loose == {}
      modifies this`routes, this`bypass, this`ssh, this`dns, this`killSwitch, this`handoff
      ensures Valid() && loose == {} && lost == old(lost) && host.present == old(host.present) && log.events == old(log.events)
      ensures r.Ok? <==> !old(shutdownComplete) && !old(handoff) && !journal.journal.phase.Conflict? && !journal.journal.phase.Cleaning?
      ensures r.Ok? ==> handoff && killSwitch.None? && routes.None? && bypass.None? && ssh.None? && dns.None?
      ensures r.Err? ==> r == Err(Refused) && unchanged(this)
    {
      if shutdownComplete || handoff { return Err(Refused); }
      if journal.journal.phase.Conflict? || journal.journal.phase.Cleaning? { return Err(Refused); }
      routes, bypass, ssh, dns, killSwitch := None, None, None, None, None;
      handoff := true;
      return Ok(());
    }

    /** The routes whose guards run their own removal when they are dropped. */
    function RoutesHeld(): set<Resource>
      reads this
    {
      set r | r in RouteSet() + BypassSet() + SshSet() && r.Route?
    }

    /** `Drop`: without an orderly close the firewall is kept and the journal poisoned;
        route guards still held then run their own removal. */
    method DropGuards()
      requires Valid() && loose == {}
      modifies this`killSwitch, host`present, host`faults, journal, log
      ensures Valid() && Extends(old(log.events), log.events)
      ensures old(host.present) - old(RoutesHeld()) <= host.present <= old(host.present)
      ensures forall r :: r in old(host.present) && FirewallPart(r) ==> r in host.present
      ensures shutdownComplete || handoff ==> unchanged(this) && unchanged(host) && unchanged(journal) && unchanged(log)
      ensures !shutdownComplete && !handoff && old(Sealable()) ==> journal.journal.phase.Conflict? && (old(journal.Synced()) ==> Sealed())
      ensures !shutdownComplete && !handoff && old(journal.Dependable()) ==> Sealed() || journal.journal.generation == U64_MAX
      ensures !shutdownComplete && !handoff && old(host.faults) == [] ==> host.present == old(host.present) - old(RoutesHeld())
    {
      if shutdownComplete || handoff { return; }
      killSwitch := None;
      var sealed := WalConflict();
      DropRoutes(RoutesHeld());
    }

    method DropRoutes(routes: set<Resource>)
      requires Valid()
      modifies host`present, host`faults, log
      ensures Valid() && Extends(old(log.events), log.events)
      ensures old(host.present) - routes <= host.present <= old(host.present)
      ensures old(host.faults) == [] ==> host.present == old(host.present) - routes
    {
      var rest := routes;
      while rest != {}
        invariant Valid() && Extends(old(log.events), log.events) && rest <= routes
        invariant old(host.present) - routes <= host.present <= old(host.present)
        invariant old(host.faults) == [] ==> host.faults == [] && host.present == old(host.present) - (routes - rest)
      {
        var r :| r in rest;
        var _ := HostRemove(r);
        rest := rest - {r};
      }
    }

    // --------------------------------------------------------------------- set-up

    /** The guard of a recorded object is dropped: a route guard tries its removal once,
        a resolver guard does nothing. */
    method DropGuard(resource: Resource)
      requires Valid() && Diverts(resource)
      modifies this`lost, host`present, host`faults, log
      ensures Valid() && lost == old(lost) + {resource} && Extends(old(log.events), log.events)
      ensures old(host.present) - {resource} <= host.present <= old(host.present)
      ensures FailsNext(old(host.faults)) ==> host.present == old(host.present) && host.faults == old(host.faults)[if resource.Route? then 1 else 0..]
    {
      lost := lost + {resource};
      if resource.Route? { var removed := host.Remove(resource); }
      CleanExtends(old(log.events), log.events, old(lost), lost);
    }

    method WalBeginAdd(resource: Resource) returns (r: Result<U32, GuardError>)
      requires Valid()
      modifies journal, log
      ensures r.Err? ==> r.error.WalFailed?
      ensures Valid() && Extends(old(log.events), log.events)
      ensures r.Ok? ==> journal.Covers(resource) && InDoubt(journal.journal.operations, resource) && journal.Synced() && journal.journal.phase.Preparing? &&
                        r.value == |old(journal.journal).operations| + 1 &&
                        journal.journal.operations == old(journal.journal).operations + [Record(r.value, Planned, resource)]
      ensures old(ReadyFor(Now(), resource)) && Clear(old(journal.faults), 2) ==>
                r.Ok? && journal.journal == Intended(old(journal.journal), resource) && journal.faults == Rest(old(journal.faults), 2)
      ensures old(ReadyFor(Now(), resource)) && FailsNext(old(journal.faults)) ==> r.Err? && Now() == old(Now()).(faults := old(journal.faults)[1..])
    {
      ghost var ops := journal.journal.operations;
      var operation := journal.BeginAdd(resource);
      CleanExtends(old(log.events), log.events, lost, lost);
      if operation.Err? { return Err(WalFailed(operation.error)); }
      AppendDoubts(ops, Record(operation.value, Planned, resource));
      return Ok(operation.value);
    }

    /** The command may leave the object behind even when it reports failure; its record
        then stays planned. */
    method HostInstall(resource: Resource) returns (ok: bool)
      requires Valid() && journal.Covers(resource) && InDoubt(journal.journal.operations, resource)
      modifies this`ambiguous, this`loose, host`present, host`faults
      ensures Valid()
      ensures ambiguous && loose == if ok then old(loose) + {resource} else old(loose)
      ensures host.faults == Rest(old(host.faults), 1) && (Clear(old(host.faults), 1) ==> ok)
      ensures ok ==> host.present == old(host.present) + {resource}
    {
      ok := host.Install(resource);
      ambiguous := true;
      if ok { loose := loose + {resource}; }
    }

    /** The guard is gone: the object is in doubt or lost. */
    ghost method LetGo(resource: Resource)
      requires Valid() && (resource in lost || InDoubt(journal.journal.operations, resource))
      modifies this`loose
      ensures Valid() && loose == old(loose) - {resource}
    {
      loose := loose - {resource};
    }

    /** The guard is dropped while the record is still planned. */
    method DropPlanned(resource: Resource)
      requires Valid() && InDoubt(journal.journal.operations, resource)
      modifies this`loose, host`present, host`faults, log
      ensures Valid() && loose == old(loose) - {resource} && Extends(old(log.events), log.events)
    {
      if resource.Route? { var _ := HostRemove(resource); }
      LetGo(resource);
    }

    /** The guard is dropped with its record applied. */
    method DropRecorded(resource: Resource)
      requires Valid() && Diverts(resource)
      modifies this`lost, this`loose, host`present, host`faults, log
      ensures Valid() && loose == old(loose) - {resource} && lost == old(lost) + {resource} && Extends(old(log.events), log.events)
      ensures resource.Route? && FailsNext(old(host.faults)) ==> host.present == old(host.present) && host.faults == old(host.faults)[1..]
    {
      DropGuard(resource);
      LetGo(resource);
    }

    method PublishAdded() returns (r: Result<(), GuardError>)
      requires Valid()
      modifies this`ambiguous, journal, log
      ensures r.Err? ==> r.error.WalFailed?
      ensures Valid() && Extends(old(log.events), log.events) && journal.journal.operations == old(journal.journal).operations
      ensures r.Ok? ==> !ambiguous && journal.journal.phase.Active? && journal.Synced() && journal.journal.generation == old(journal.journal).generation + 1
      ensures journal.journal.session == old(journal.journal).session
      ensures old(journal.Synced()) && old(journal.journal).generation < U64_MAX && old(journal.journal).phase.Preparing? && Clear(old(journal.faults), 1) &&
              (forall x :: !InDoubt(old(journal.journal).operations, x)) ==>
                r.Ok? && journal.faults == Rest(old(journal.faults), 1)
      ensures r.Err? ==> ambiguous == old(ambiguous)
    {
      r := WalPublish();
      if r.Ok? { ambiguous := false; }
    }

    /** Closes the record of a new object. While the acknowledgement is missing the record
        stays planned; after it, a failure loses the object. */
    method ConfirmAdd(operation: U32, resource: Resource) returns (r: Result<(), GuardError>)
      requires Valid() && Diverts(resource) && resource in loose
      requires 1 <= operation <= |journal.journal.operations| && journal.journal.operations[operation - 1] == Record(operation, Planned, resource)
      modifies this`ambiguous, this`lost, this`loose, host`present, host`faults, journal, log
      ensures r.Err? ==> r.error.WalFailed?
      ensures Extends(old(log.events), log.events) && Valid()
      ensures r.Ok? ==> loose == old(loose)
      ensures r.Err? ==> loose == old(loose) - {resource} && old(lost) <= lost <= old(lost) + {resource} && ambiguous == old(ambiguous)
      ensures r.Ok? ==> lost == old(lost) && Now() == Confirmed(old(Now()), operation).(faults := journal.faults)
      ensures old(Closable(journal.journal, journal.disk, resource)) && Clear(old(journal.faults), 2) ==> r.Ok? && journal.faults == Rest(old(journal.faults), 2)
    {
      ghost var ops := journal.journal.operations;
      RestRest(journal.faults, 1, 1);
      r := WalAcknowledgeAdd(operation);
      if r.Err? {
        assert InDoubt(journal.journal.operations, resource);
        DropPlanned(resource);
        return;
      }
      LastDoubt(ops, operation, resource);
      r := PublishAdded();
      if r.Err? { DropRecorded(resource); }
    }

    /** The object is on the host and its record is applied, in memory and on disk. */
    ghost predicate Added(s: Snap, resource: Resource)
      reads this, host, journal
    {
      AddedTo(s, resource, Now())
    }

    /** `journaled_add_route`; a resolver exchange is pinned in the same steps. On
        success the new guard is the caller's. */
    method JournaledAdd(resource: Resource) returns (r: Result<(), GuardError>)
      requires Valid() && Diverts(resource)
      modifies this`ambiguous, this`lost, this`loose, host`present, host`faults, journal, log
      ensures Valid() && Extends(old(log.events), log.events)
      ensures r.Ok? ==> lost == old(lost) && loose == old(loose) + {resource}
      ensures r.Err? ==> old(lost) <= lost <= old(lost) + {resource} && old(loose) - {resource} <= loose <= old(loose)
      // a failing command loses nothing: its record stays planned
      ensures r == Err(HostCommand) ==> lost == old(lost) && InDoubt(journal.journal.operations, resource)
      ensures r.Ok? ==> Added(old(Now()), resource)
      ensures Telling(r.Ok?, old(host.present), old(ambiguous))
      ensures old(ReadyFor(Now(), resource)) && Clear(old(journal.faults), 4) && Clear(old(host.faults), 1) ==>
                r.Ok? && Now() == Installed(old(Now()), resource)
      ensures old(ReadyFor(Now(), resource)) && FailsNext(old(journal.faults)) ==>
                r.Err? && lost == old(lost) && Now() == old(Now()).(faults := old(journal.faults)[1..])
    {
      RestRest(journal.faults, 2, 2);
      var operation := WalBeginAdd(resource);
      if operation.Err? {
        r := Err(operation.error);
      } else {
        OnlyDoubt(old(journal.journal).operations, operation.value, resource);
        ghost var mid := Now();
        r := InstallRecorded(operation.value, resource);
        if r.Ok? { ConfirmedAdds(old(Now()), mid, resource, Now()); }
      }
    }

    /** The command and the closing of its record. */
    method InstallRecorded(operation: U32, resource: Resource) returns (r: Result<(), GuardError>)
      requires Valid() && Diverts(resource) && journal.Covers(resource)
      requires 1 <= operation <= |journal.journal.operations| && journal.journal.operations[operation - 1] == Record(operation, Planned, resource)
      modifies this`ambiguous, this`lost, this`loose, host`present, host`faults, journal, log
      ensures Valid() && Extends(old(log.events), log.events)
      ensures r.Ok? ==> lost == old(lost) && loose == old(loose) + {resource}
      ensures r.Err? ==> old(lost) <= lost <= old(lost) + {resource} && old(loose) - {resource} <= loose <= old(loose)
      ensures r == Err(HostCommand) ==> lost == old(lost) && InDoubt(journal.journal.operations, resource)
      ensures r.Err? ==> ambiguous
      ensures r.Ok? ==> Now() == Confirmed(old(Now()), operation).(faults := journal.faults, present := old(host.present) + {resource},
                                                                  hostFaults := Rest(old(host.faults), 1))
      ensures old(Closable(journal.journal, journal.disk, resource)) && Clear(old(journal.faults), 2) && Clear(old(host.faults), 1) ==>
                r.Ok? && journal.faults == Rest(old(journal.faults), 2)
    {
      assert InDoubt(journal.journal.operations, resource);
      var installed := HostInstall(resource);
      if !installed { return Err(HostCommand); }
      r := ConfirmAdd(operation, resource);
    }

    method AddSshBypass(resource: Resource) returns (r: Result<(), GuardError>)
      requires Valid() && loose == {} && ssh.None? && resource.Route?
      modifies this`ambiguous, this`lost, this`loose, this`ssh, host`present, host`faults, journal, log
      ensures Valid() && loose == {} && Extends(old(log.events), log.events)
      ensures r.Ok? ==> lost == old(lost) && ssh == Some(resource) && Added(old(Now()), resource)
      ensures r.Err? ==> ssh.None?
      ensures old(lost) <= lost <= old(lost) + {resource}
      ensures old(ReadyFor(Now(), resource)) && Clear(old(journal.faults), 4) && Clear(old(host.faults), 1) ==> r.Ok?
    {
      r := JournaledAdd(resource);
      if r.Err? { return; }
      ssh, loose := Some(resource), {};
    }

    /** `route_add_bypass`. */
    method AddBypass(ip: nat, resource: Resource) returns (r: Result<bool, GuardError>)
      requires Valid() && loose == {} && resource.Route?
      modifies this`ambiguous, this`lost, this`loose, this`bypass, host`present, host`faults, journal, log
      ensures Valid() && loose == {} && Extends(old(log.events), log.events)
      ensures old(bypass).None? ==> r == Err(Refused)
      ensures old(bypass).Some? ==> (r == Ok(false) <==> ip in old(bypass).value)
      ensures r.Ok? ==> lost == old(lost)
      ensures r.Ok? ==> bypass.Some? && ip in bypass.value
      ensures r == Ok(true) ==> bypass == Some(old(bypass).value[ip := resource]) && Added(old(Now()), resource)
      ensures r != Ok(true) ==> bypass == old(bypass)
      ensures r == Ok(false) || old(bypass).None? ==> lost == old(lost) && Now() == old(Now())
      ensures old(lost) <= lost <= old(lost) + {resource}
      ensures old(bypass).Some? && ip !in old(bypass).value && old(ReadyFor(Now(), resource)) && Clear(old(journal.faults), 4) && Clear(old(host.faults), 1) ==>
                r == Ok(true)
    {
      if bypass.None? { return Err(Refused); }
      if ip in bypass.value { return Ok(false); }
      var added := JournaledAdd(resource);
      if added.Err? { return Err(added.error); }
      KeepBypass(ip, resource);
      return Ok(true);
    }

    method KeepBypass(ip: nat, resource: Resource)
      requires Valid() && bypass.Some? && ip !in bypass.value && loose == {resource}
      modifies this`bypass, this`loose
      ensures Valid() && loose == {} && bypass == Some(old(bypass).value[ip := resource])
    {
      ValuesAdd(bypass.value, ip, resource);
      bypass, loose := Some(bypass.value[ip := resource]), {};
    }

    /** `route_remove_bypass`. */
    method RemoveBypass(ip: nat) returns (r: Result<bool, GuardError>)
      requires Valid() && loose == {}
      modifies this`ambiguous, this`bypass, host`present, host`faults, journal, log
      ensures Valid() && loose == {} && lost == old(lost) && Extends(old(log.events), log.events)
      ensures old(bypass).None? ==> r == Err(Refused)
      ensures old(bypass).Some? ==> (r == Ok(false) <==> ip !in old(bypass).value)
      ensures r.Ok? ==> bypass.Some? && ip !in bypass.value
      ensures r == Ok(true) ==> bypass == Some(old(bypass).value - {ip}) && old(bypass).value[ip] !in host.present
      ensures r != Ok(true) ==> bypass == old(bypass)
      ensures r == Ok(false) || old(bypass).None? ==> Now() == old(Now())
      ensures old(bypass).Some? && ip in old(bypass).value && old(CanTake(Now(), {bypass.value[ip]})) ==>
                r == Ok(true) && Now() == Taken(old(Now()), {old(bypass).value[ip]})
    {
      if bypass.None? { return Err(Refused); }
      if ip !in bypass.value { return Ok(false); }
      var resource := bypass.value[ip];
      var removed := JournaledRemove(resource);
      if removed.Err? { return Err(removed.error); }
      var before := bypass.value;
      bypass := Some(before - {ip});
      ValuesDrop(before, ip);
      return Ok(true);
    }

    /** Both split-default routes, or neither guard. */
    method AddSplitRoutes(low: Resource, high: Resource) returns (r: Result<(), GuardError>)
      requires Valid() && loose == {} && routes.None? && low.Route? && high.Route?
      modifies this`ambiguous, this`lost, this`loose, this`routes, host`present, host`faults, journal, log
      ensures Valid() && loose == {} && Extends(old(log.events), log.events)
      ensures r.Ok? ==> lost == old(lost) && routes == Some([low, high])
      ensures r.Err? ==> routes.None?
      ensures old(lost) <= lost <= old(lost) + {low, high}
      // the second record is refused and the first guard cannot remove its route
      ensures old(ReadyFor(Now(), low)) && old(FirstLost(Now(), low, high)) ==>
                r.Err? && Now() == Installed(old(Now()), low).(faults := Rest(old(journal.faults), 5), hostFaults := Rest(old(host.faults), 2))
      ensures old(ReadyFor(Now(), low)) && ReadyFor(Installed(old(Now()), low), high) && Clear(old(journal.faults), 8) && Clear(old(host.faults), 2) ==>
                r.Ok? && Now() == Installed(Installed(old(Now()), low), high)
    {
      RestRest(journal.faults, 4, 4);
      RestRest(journal.faults, 4, 1);
      RestRest(host.faults, 1, 1);
      if FirstLost(Now(), low, high) && ReadyFor(Now(), low) { ReadyNext(Now(), low, high); }
      r := JournaledAdd(low);
      if r.Err? { return; }
      r := AddSecond(low, high);
    }

    method AddSecond(low: Resource, high: Resource) returns (r: Result<(), GuardError>)
      requires Valid() && loose == {low} && routes.None? && low.Route? && high.Route?
      modifies this`ambiguous, this`lost, this`loose, this`routes, host`present, host`faults, journal, log
      ensures Valid() && loose == {} && Extends(old(log.events), log.events)
      ensures r.Ok? ==> lost == old(lost) && routes == Some([low, high])
      ensures r.Err? ==> routes.None?
      ensures old(lost) <= lost <= old(lost) + {low, high}
      ensures old(ReadyFor(Now(), high)) && FailsNext(old(journal.faults)) && FailsNext(old(host.faults)) ==>
                r.Err? && Now() == old(Now()).(faults := old(journal.faults)[1..], hostFaults := old(host.faults)[1..])
      ensures old(ReadyFor(Now(), high)) && Clear(old(journal.faults), 4) && Clear(old(host.faults), 1) ==> r.Ok? && Now() == Installed(old(Now()), high)
    {
      r := JournaledAdd(high);
      if r.Err? { DropRecorded(low); } else { KeepBoth(low, high); }
    }

    method KeepBoth(low: Resource, high: Resource)
      requires Valid() && loose == {low, high} && routes.None?
      modifies this`routes, this`loose
      ensures Valid() && loose == {} && routes == Some([low, high])
    {
      routes, loose := Some([low, high]), {};
    }

    /** `apply_dns_exchange`. */
    method PinDns(resource: Resource) returns (r: Result<(), GuardError>)
      requires Valid() && loose == {} && resource.Dns?
      modifies this`ambiguous, this`lost, this`loose, this`dns, host`present, host`faults, journal, log
      ensures Valid() && loose == {} && Extends(old(log.events), log.events)
      ensures old(dns).Some? ==> r == Err(Refused) && Now() == old(Now())
      ensures r.Ok? ==> lost == old(lost) && dns == Some(resource) && Added(old(Now()), resource)
      ensures r.Err? ==> dns == old(dns)
      ensures old(lost) <= lost <= old(lost) + {resource}
      ensures old(dns).None? && old(ReadyFor(Now(), resource)) && Clear(old(journal.faults), 4) && Clear(old(host.faults), 1) ==> r.Ok?
    {
      if dns.Some? { return Err(Refused); }
      r := JournaledAdd(resource);
      if r.Err? { return; }
      dns, loose := Some(resource), {};
    }
  }

  /** The operations name each planned record exactly once. */
  ghost predicate Engages(ops: seq<Record>, operations: seq<U32>) {
    && (forall k :: 0 <= k < |operations| ==> 1 <= operations[k] <= |ops| && ops[operations[k] - 1].state.Planned?)
    && (forall i, k :: 0 <= i < k < |operations| ==> operations[i] != operations[k])
    && (forall i :: 0 <= i < |ops| && ops[i].state.Planned? ==> i + 1 in operations)
  }

  /** The named records applied. */
  ghost function Engaged(ops: seq<Record>, named: set<U32>): (r: seq<Record>)
    ensures |r| == |ops| && forall i :: 0 <= i < |ops| ==> r[i] == if i + 1 in named then ops[i].(state := Applied) else ops[i]
  {
    seq(|ops|, i requires 0 <= i < |ops| => if i + 1 in named then ops[i].(state := Applied) else ops[i])
  }

  lemma EngagedNone(ops: seq<Record>)
    ensures Engaged(ops, {}) == ops
  {
  }

  lemma EngagedNext(ops: seq<Record>, named: set<U32>, id: U32)
    requires 1 <= id <= |ops| && id !in named
    ensures Engaged(ops, named)[id - 1] == ops[id - 1] && WithState(Engaged(ops, named), id, Applied) == Engaged(ops, named + {id})
  {
    var after := WithState(Engaged(ops, named), id, Applied);
    forall i | 0 <= i < |ops| ensures after[i] == Engaged(ops, named + {id})[i] {
      assert i + 1 in named + {id} <==> i + 1 in named || i == id - 1;
    }
  }

  lemma EngagedAll(ops: seq<Record>, operations: seq<U32>)
    requires Engages(ops, operations)
    ensures forall x :: !InDoubt(Engaged(ops, Elements(operations)), x)
  {
    forall i | 0 <= i < |ops| ensures !Engaged(ops, Elements(operations))[i].state.Planned? {
      assert ops[i].state.Planned? ==> i + 1 in Elements(operations);
    }
  }

  lemma NotYetNamed(ops: seq<Record>, operations: seq<U32>, i: nat)
    requires Engages(ops, operations) && i < |operations|
    ensures operations[i] !in Elements(operations[..i]) && 1 <= operations[i] <= |ops| && ops[operations[i] - 1].state.Planned?
  {
  }

  lemma NamedNext(operations: seq<U32>, i: nat)
    requires i < |operations|
    ensures Elements(operations[..i + 1]) == Elements(operations[..i]) + {operations[i]}
  {
    assert operations[..i + 1] == operations[..i] + [operations[i]];
  }

  ghost predicate AddedTo(s: Snap, r: Resource, t: Snap) {
    && t.present == s.present + {r} && !t.ambiguous && t.disk == Some(t.journal) && t.journal.phase.Active?
    && |s.journal.operations| < MAX_OPERATIONS && t.journal.operations == s.journal.operations + [Record(|s.journal.operations| + 1, Applied, r)]
  }

  /** A record that is planned and then confirmed is added. */
  lemma ConfirmedAdds(s: Snap, mid: Snap, r: Resource, t: Snap)
    requires |s.journal.operations| < MAX_OPERATIONS && mid.present == s.present
    requires mid.journal.operations == s.journal.operations + [Record(|s.journal.operations| + 1, Planned, r)]
    requires t == Confirmed(mid, |s.journal.operations| + 1).(faults := t.faults, present := mid.present + {r}, hostFaults := t.hostFaults)
    ensures AddedTo(s, r, t)
  {
    AppliedLast(s.journal.operations, |s.journal.operations| + 1, r);
  }

  lemma LateReleases(a: seq<Event>, b: seq<Event>, c: seq<Event>, present: set<Resource>)
    requires ReleasesOnly(a, b, present) && Extends(b, c)
    ensures ReleasesOnly(a, c, present) && (Released(a, c) <==> Released(a, b))
  {
    if Released(a, c) {
      var i :| |a| <= i < |c| && c[i].FirewallReleased?;
      assert i < |b| && c[i] == b[i];
    }
    if Released(a, b) {
      var i :| |a| <= i < |b| && b[i].FirewallReleased?;
      assert c[i] == b[i];
    }
    forall i | |a| <= i < |c| && c[i].FirewallReleased? ensures c[i].present == present {
      assert i < |b| && c[i] == b[i];
    }
  }

  lemma RemovedNoDoubts(ops: seq<Record>, id: U32)
    requires 1 <= id <= |ops|
    ensures (forall x :: !InDoubt(ops, x)) ==> forall x :: !InDoubt(WithState(ops, id, Removed), x)
  {
    var after := WithState(ops, id, Removed);
    forall x | InDoubt(after, x) ensures InDoubt(ops, x) {
      var i :| 0 <= i < |after| && after[i].resource == x && after[i].state.Planned?;
      assert ops[i] == after[i];
    }
  }

  /** The record of the object is the only one in doubt, and can be closed. */
  ghost predicate Closable(j: Journal, disk: Option<Journal>, r: Resource) {
    disk == Some(j) && j.generation + 1 < U64_MAX && j.phase.Preparing? && forall x :: InDoubt(j.operations, x) ==> x == r
  }

  /** Once its record is applied nothing is in doubt, if it was the only one. */
  lemma LastDoubt(ops: seq<Record>, id: U32, r: Resource)
    requires 1 <= id <= |ops| && ops[id - 1] == Record(id, Planned, r)
    requires forall a, b :: 0 <= a < b < |ops| && ops[a].resource == ops[b].resource ==> ops[a].state.Removed?
    ensures (forall x :: InDoubt(ops, x) ==> x == r) ==> forall x :: !InDoubt(WithState(ops, id, Applied), x)
  {
    var after := WithState(ops, id, Applied);
    if forall x :: InDoubt(ops, x) ==> x == r {
      forall i | 0 <= i < |after| ensures !after[i].state.Planned? {
        if after[i].state.Planned? {
          assert ops[i] == after[i] && InDoubt(ops, ops[i].resource);
        }
      }
    }
  }

  lemma OnlyDoubt(ops: seq<Record>, id: U32, r: Resource)
    ensures (forall i :: 0 <= i < |ops| ==> !ops[i].state.Planned?) ==> forall x :: InDoubt(ops + [Record(id, Planned, r)], x) ==> x == r
  {
    var after := ops + [Record(id, Planned, r)];
    if forall i :: 0 <= i < |ops| ==> !ops[i].state.Planned? {
      forall x | InDoubt(after, x) ensures x == r {
        var i :| 0 <= i < |after| && after[i].resource == x && after[i].state.Planned?;
        assert i < |ops| ==> after[i] == ops[i];
      }
    }
  }

  lemma StillApplied(ops: seq<Record>, id: U32, parts: set<Resource>)
    requires 1 <= id <= |ops| && ops[id - 1].resource.Tun?
    requires forall x :: x in parts ==> FirewallPart(x)
    ensures forall x :: x in parts && HasApplied(ops, x) ==> HasApplied(WithState(ops, id, Removed), x)
  {
    forall x | x in parts && HasApplied(ops, x) ensures HasApplied(WithState(ops, id, Removed), x) {
      var i :| 0 <= i < |ops| && ops[i].resource == x && ops[i].state.Applied?;
      assert WithState(ops, id, Removed)[i] == ops[i];
    }
  }

  /** The first route goes through, the record of the second is refused, and so is the
      removal of the first. */
  ghost predicate FirstLost(s: Snap, low: Resource, high: Resource) {
    && low != high && !HasLive(s.journal.operations, high) && |s.journal.operations| + 1 < MAX_OPERATIONS && s.journal.generation + 8 < U64_MAX
    && Clear(s.faults, 4) && FailsNext(Rest(s.faults, 4)) && Clear(s.hostFaults, 1) && FailsNext(Rest(s.hostFaults, 1))
  }

  lemma ReadyNext(s: Snap, low: Resource, high: Resource)
    requires ReadyFor(s, low) && FirstLost(s, low, high)
    ensures ReadyFor(Installed(s, low), high)
  {
    var before, after := s.journal.operations, Settled(s.journal, low).operations;
    forall i | 0 <= i < |after| && after[i].resource == high ensures after[i].state.Removed? {
      assert before[i] == after[i];
    }
  }

  lemma ValuesAdd(m: map<nat, Resource>, ip: nat, r: Resource)
    requires ip !in m
    ensures m[ip := r].Values == m.Values + {r}
  {
    var n := m[ip := r];
    forall x | x in m.Values ensures x in n.Values {
      var k :| k in m && m[k] == x;
      assert n[k] == x;
    }
    assert n[ip] == r;
  }

  lemma ValuesDrop(m: map<nat, Resource>, ip: nat)
    requires ip in m
    ensures m.Values - {m[ip]} <= (m - {ip}).Values
  {
    forall x | x in m.Values && x != m[ip] ensures x in (m - {ip}).Values {
      var k :| k in m && m[k] == x;
      assert (m - {ip})[k] == x;
    }
  }

  // ------------------------------------------------------------------------- runs

  datatype Call =
    | PinSsh(resource: Resource)
    | AddPath(ip: nat, resource: Resource)
    | RemovePath(ip: nat)
    | Split(low: Resource, high: Resource)
    | Pin(resource: Resource)
    | Close
    | Seal
    | Hand

  /** Arguments have the kind their call asks for. */
  predicate Typed(c: Call) {
    match c
    case PinSsh(r) => r.Route?
    case AddPath(_, r) => r.Route?
    case Split(a, b) => a.Route? && b.Route?
    case Pin(r) => r.Dns?
    case _ => true
  }

  /** What a set-up call is to install. */
  function Installs(c: Call): set<Resource> {
    match c
    case PinSsh(r) => {r}
    case AddPath(_, r) => {r}
    case Split(a, b) => {a, b}
    case Pin(r) => {r}
    case _ => {}
  }

  /** What the set-up calls that failed were to install. */
  function Unsettled(calls: seq<Call>, results: seq<bool>): set<Resource>
    requires |calls| == |results|
  {
    if calls == [] then {}
    else
      var n := |calls| - 1;
      Unsettled(calls[..n], results[..n]) + if results[n] then {} else Installs(calls[n])
  }

  /** What a call that succeeded has done. */
  ghost predicate Done(g: FullTunnelGuards, c: Call)
    reads g, g.host, g.journal
  {
    match c
    case PinSsh(r) => g.ssh.Some?
    case AddPath(ip, r) => g.bypass.Some? && ip in g.bypass.value
    case RemovePath(ip) => g.bypass.Some? && ip !in g.bypass.value
    case Split(low, high) => g.routes.Some?
    case Pin(r) => g.dns == Some(r)
    case Close => g.shutdownComplete || (g.journal.disk == None && g.host.present == {})
    case Seal => g.killSwitch.None? && g.journal.journal.phase.Conflict?
    case Hand => g.handoff && g.killSwitch.None?
  }

  method Perform(g: FullTunnelGuards, c: Call) returns (ok: bool)
    requires g.Valid() && g.loose == {} && Typed(c)
    modifies g, g.host, g.journal, g.log
    ensures g.Valid() && g.loose == {}
    ensures !c.Close? ==> Extends(old(g.log.events), g.log.events)
    ensures old(g.lost) <= g.lost <= old(g.lost) + if ok then {} else Installs(c)
    ensures ok ==> Done(g, c)
    ensures c.Close? && old(g.Orderly()) ==> Released(old(g.log.events), g.log.events) && (ok <==> old(g.Complete()))
    ensures c.Hand? ==> (ok <==> !old(g.shutdownComplete) && !old(g.handoff) && !g.journal.journal.phase.Conflict? && !g.journal.journal.phase.Cleaning?)
  {
    ok := true;
    match c
    case PinSsh(r) => if g.ssh.None? { var result := g.AddSshBypass(r); ok := result.Ok?; }
    case AddPath(ip, r) => var result := g.AddBypass(ip, r); ok := result.Ok?;
    case RemovePath(ip) => var result := g.RemoveBypass(ip); ok := result.Ok?;
    case Split(low, high) => if g.routes.None? { var result := g.AddSplitRoutes(low, high); ok := result.Ok?; }
    case Pin(r) => var result := g.PinDns(r); ok := result.Ok?;
    case Close => var result := g.CloseAfterSessions(); ok := result.Ok?;
    case Seal => var result := g.SealFailClosed(); ok := result.Ok?;
    case Hand => var result := g.HandOff(); ok := result.Ok?;
  }

  lemma CleanMore(events: seq<Event>, lost: set<Resource>, more: set<Resource>)
    requires CleanReleases(events, lost) && lost <= more
    ensures CleanReleases(events, more)
  {
  }

  /** Any sequence of calls with any failures, ended by dropping the guards: each
      release of the firewall came after the TUN was seen absent and with nothing
      diverting traffic but what a failed set-up call was to install; and whatever is
      left on the host has a live record on disk. */
  method Run(g: FullTunnelGuards, calls: seq<Call>) returns (results: seq<bool>)
    requires g.Valid() && g.loose == {} && g.lost == {} && forall i :: 0 <= i < |calls| ==> Typed(calls[i])
    modifies g, g.host, g.journal, g.log
    ensures |results| == |calls| && CleanReleases(g.log.events, Unsettled(calls, results))
    ensures forall r :: r in g.host.present ==> g.journal.Covers(r)
    ensures g.journal.disk == None ==> g.host.present == {}
    // without a close or a handoff the next start finds a journal in conflict
    ensures g.reliable && !g.shutdownComplete && !g.handoff ==> g.Sealed() || g.journal.journal.generation == U64_MAX
  {
    results := [];
    for i := 0 to |calls|
      invariant g.Valid() && g.loose == {} && |results| == i && g.lost <= Unsettled(calls[..i], results)
    {
      var ok := Perform(g, calls[i]);
      assert calls[..i + 1][..i] == calls[..i] && (results + [ok])[..i] == results;
      results := results + [ok];
    }
    assert calls[..|calls|] == calls;
    g.DropGuards();
    CleanMore(g.log.events, g.lost, Unsettled(calls, results));
  }

  // ------------------------------------------------------------------ a route that is lost

  /** The firewall and the TUN alone, on the host and in the journal. */
  const FIRST_PRESENT: set<Resource> := {Firewall(0), Tun(0)}
  const FIRST_RECORDS: seq<Record> := [Record(1, Applied, Firewall(0)), Record(2, Applied, Tun(0))]

  /** Guards over a firewall and a TUN, about to be armed. */
  method Unarmed(faults: seq<DiskFault>, hostFaults: seq<DiskFault>) returns (g: FullTunnelGuards)
    ensures fresh(g) && fresh(g.host) && fresh(g.journal) && fresh(g.log) && g.Valid() && g.loose == {} && OnlyFirst(g)
    ensures g.Now() == Snap(Journal(0, 1, Preparing, FIRST_RECORDS), Some(Journal(0, 1, Preparing, FIRST_RECORDS)), faults, FIRST_PRESENT, hostFaults, true)
  {
    var log := new EventLog();
    var journal := new DurableHostJournal(log, Journal(0, 1, Preparing, FIRST_RECORDS), faults);
    var host := new Host(log, FIRST_PRESENT, hostFaults, []);
    assert FIRST_RECORDS[0].resource == Firewall(0) && FIRST_RECORDS[1].resource == Tun(0);
    assert journal.Covers(Firewall(0)) && journal.Covers(Tun(0));
    g := new FullTunnelGuards(host, journal, Tun(0), {Firewall(0)});
  }

  /** The same, armed, with the failures to come. */
  method Armed(faults: seq<DiskFault>, hostFaults: seq<DiskFault>) returns (g: FullTunnelGuards)
    requires Clear(faults, 1)
    ensures fresh(g) && fresh(g.host) && fresh(g.journal) && fresh(g.log) && g.Valid() && g.loose == {} && OnlyFirst(g)
    ensures g.Now() == Snap(Journal(0, 2, Active, FIRST_RECORDS), Some(Journal(0, 2, Active, FIRST_RECORDS)), Rest(faults, 1), FIRST_PRESENT, hostFaults, false)
  {
    g := Unarmed(faults, hostFaults);
    assert forall x :: !InDoubt(FIRST_RECORDS, x);
    var armed := g.Arm([]);
  }

  /** The first split route is installed, the journal refuses the record of the second, the
      first guard goes out of scope and cannot remove its route. */
  method LoseRoute(low: Resource, high: Resource) returns (g: FullTunnelGuards)
    requires low.Route? && high.Route? && low != high
    ensures fresh(g) && fresh(g.host) && fresh(g.journal) && fresh(g.log) && g.Valid() && g.loose == {}
    ensures g.Orderly() && g.Held() == {} && {low, Firewall(0)} <= g.host.present
  {
    g := Armed([Works, Works, Works, Works, Works, FailsBefore], [Works, FailsBefore]);
    FailSecond(g, low, high);
  }

  method FailSecond(g: FullTunnelGuards, low: Resource, high: Resource)
    requires low.Route? && high.Route? && low != high && g.Valid() && g.loose == {} && OnlyFirst(g)
    requires var j := Journal(0, 2, Active, FIRST_RECORDS);
             g.Now() == Snap(j, Some(j), [Works, Works, Works, Works, FailsBefore], FIRST_PRESENT, [Works, FailsBefore], false)
    modifies g`ambiguous, g`lost, g`loose, g`routes, g.host`present, g.host`faults, g.journal, g.log
    ensures g.Valid() && g.loose == {} && g.Orderly() && g.Held() == {} && {low, Firewall(0)} <= g.host.present
  {
    FirstLostAtStart(g.Now(), low, high);
    var split := g.AddSplitRoutes(low, high);
    LostStands(g, low);
  }

  /** Nothing is held but the first firewall and the first TUN. */
  ghost predicate OnlyFirst(g: FullTunnelGuards)
    reads g, g.host
  {
    && g.NothingHeld() && !g.shutdownComplete && g.tun == Some(Tun(0)) && g.tunRemove.None? && g.killSwitch == Some({Firewall(0)})
    && g.host.impostors == []
  }

  /** A run that does release the firewall over a route: nothing fails but the record of the
      second split route and the removal of the first. */
  method LostRouteReleased(low: Resource, high: Resource) returns (g: FullTunnelGuards, at: nat)
    requires low.Route? && high.Route? && low != high
    ensures fresh(g) && g.Valid() && at < |g.log.events| && g.log.events[at].FirewallReleased?
    ensures low in g.log.events[at].present && Firewall(0) in g.log.events[at].present
  {
    g := LoseRoute(low, high);
    var before := g.log.events;
    var closed := g.CloseAfterSessions();
    at :| |before| <= at < |g.log.events| && g.log.events[at].FirewallReleased?;
  }

  lemma FirstLostAtStart(s: Snap, low: Resource, high: Resource)
    requires low.Route? && high.Route? && low != high
    requires var j := Journal(0, 2, Active, FIRST_RECORDS); s == Snap(j, Some(j), [Works, Works, Works, Works, FailsBefore], FIRST_PRESENT, [Works, FailsBefore], false)
    ensures ReadyFor(s, low) && FirstLost(s, low, high)
    ensures var j := Journal(0, 6, Active, FIRST_RECORDS + [Record(3, Applied, low)]);
            Installed(s, low).(faults := Rest(s.faults, 5), hostFaults := Rest(s.hostFaults, 2)) == Snap(j, Some(j), [], FIRST_PRESENT + {low}, [], false)
  {
  }

  /** With the lost route as the only other record, a close goes through. */
  lemma LostStands(g: FullTunnelGuards, low: Resource)
    requires OnlyFirst(g) && low.Route?
    requires var j := Journal(0, 6, Active, FIRST_RECORDS + [Record(3, Applied, low)]); g.Now() == Snap(j, Some(j), [], FIRST_PRESENT + {low}, [], false)
    ensures g.Orderly() && g.Held() == {}
  {
    var ops := FIRST_RECORDS + [Record(3, Applied, low)];
    assert ops[0] == FIRST_RECORDS[0] && ops[1] == FIRST_RECORDS[1];
    assert {Firewall(0), Tun(0)} <= LiveSet(ops);
    LiveFew(ops);
  }
}
