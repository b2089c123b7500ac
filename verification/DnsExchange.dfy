/** The two-name resolver exchange: pure classification and planning, and the
    link, activate and recover procedures one system call at a time, with a
    script of what happens between the calls: another process changing the
    directory, a failing call, or the end of this process. */
module DnsExchange {
  import opened Prelude
  import opened Names

  datatype FileKind = Regular | Symlink

  datatype FileIdentity = FileIdentity(device: U64, inode: U64, uid: U32, gid: U32, mode: U32, linkCount: U64, kind: FileKind)

  /** A file as `fstatat` shows it: identity, and a stamp standing for size, mtime and ctime. */
  datatype Obj = Obj(identity: FileIdentity, stamp: nat)

  datatype Seen = Seen(identity: FileIdentity, digest: Option<Bytes>)

  /** Content digest of a file in a given version. */
  type Contents = (FileIdentity, nat) -> Bytes

  datatype Resource = Resource(original: FileIdentity, originalDigest: Option<Bytes>, pinned: FileIdentity, pinnedDigest: Bytes)

  datatype Dir = Dir(target: Option<Obj>, exchange: Option<Obj>)

  datatype Topology = Active | Staged | Absent | Mixed

  datatype Action = ExchangeThenUnlink | UnlinkStaged | AlreadyAbsent

  datatype Failure = Conflict | Operational | Died

  function Observe(content: Contents, o: Obj): Seen {
    Seen(o.identity, if o.identity.kind.Regular? then Some(content(o.identity, o.stamp)) else None)
  }

  function ObserveName(content: Contents, o: Option<Obj>): Option<Seen> {
    if o.None? then None else Some(Observe(content, o.value))
  }

  // ----------------------------------------------------------- classify and plan

  predicate Matches(seen: Option<Seen>, identity: FileIdentity, digest: Option<Bytes>) {
    seen.Some? && seen.value.identity == identity && seen.value.digest == digest
  }

  function Classify(r: Resource, target: Option<Seen>, exchange: Option<Seen>): Topology {
    var targetOriginal := Matches(target, r.original, r.originalDigest);
    var targetPinned := Matches(target, r.pinned, Some(r.pinnedDigest));
    var exchangeOriginal := Matches(exchange, r.original, r.originalDigest);
    var exchangePinned := Matches(exchange, r.pinned, Some(r.pinnedDigest));
    match (targetOriginal, targetPinned, exchangeOriginal, exchangePinned, exchange.None?)
    case (false, true, true, false, false) => Active
    case (true, false, false, true, false) => Staged
    case (true, false, false, false, true) => Absent
    case _ => Mixed
  }

  function PlanRecovery(t: Topology): Result<Action, Failure> {
    match t
    case Active => Ok(ExchangeThenUnlink)
    case Staged => Ok(UnlinkStaged)
    case Absent => Ok(AlreadyAbsent)
    case Mixed => Err(Conflict)
  }

  /** `DnsResource::validate`, as far as ownership is concerned. */
  predicate ValidResource(r: Resource) {
    r.pinned.kind.Regular? && (r.original.device, r.original.inode) != (r.pinned.device, r.pinned.inode) &&
    (r.original.kind.Regular? <==> r.originalDigest.Some?)
  }

  function Original(r: Resource): Seen { Seen(r.original, r.originalDigest) }
  function Pinned(r: Resource): Seen { Seen(r.pinned, Some(r.pinnedDigest)) }

  /** Each recoverable topology is one exact arrangement of the two journaled
      objects, and the three are mutually exclusive. */
  lemma ClassifyExact(r: Resource, target: Option<Seen>, exchange: Option<Seen>)
    requires ValidResource(r)
    ensures Classify(r, target, exchange) == Active <==> target == Some(Pinned(r)) && exchange == Some(Original(r))
    ensures Classify(r, target, exchange) == Staged <==> target == Some(Original(r)) && exchange == Some(Pinned(r))
    ensures Classify(r, target, exchange) == Absent <==> target == Some(Original(r)) && exchange == None
  {
    assert Original(r) != Pinned(r);
    assert Matches(target, r.original, r.originalDigest) <==> target == Some(Original(r));
    assert Matches(target, r.pinned, Some(r.pinnedDigest)) <==> target == Some(Pinned(r));
    assert Matches(exchange, r.original, r.originalDigest) <==> exchange == Some(Original(r));
    assert Matches(exchange, r.pinned, Some(r.pinnedDigest)) <==> exchange == Some(Pinned(r));
  }

  function TopologyOf(content: Contents, r: Resource, d: Dir): Topology {
    Classify(r, ObserveName(content, d.target), ObserveName(content, d.exchange))
  }

  /** What recovery is authorised to touch. */
  datatype Mutation = Linked(obj: Obj) | Exchanged(target: Obj, exchange: Obj) | Unlinked(obj: Obj)

  predicate Authorized(content: Contents, r: Resource, m: Mutation) {
    match m
    case Linked(o) => Observe(content, o) == Pinned(r)
    case Exchanged(t, e) =>
      {Observe(content, t), Observe(content, e)} == {Original(r), Pinned(r)}
    case Unlinked(o) => Observe(content, o) == Pinned(r)
  }

  // ------------------------------------------------------------------- the script

  datatype Event = Quiet | Foreign(dir: Dir) | Fail | Die

  ghost predicate Calm(script: seq<Event>) {
    forall i :: 0 <= i < |script| ==> !script[i].Foreign?
  }

  ghost predicate AllQuiet(script: seq<Event>) {
    forall i :: 0 <= i < |script| ==> script[i].Quiet?
  }

  /** The next `n` calls go undisturbed. */
  ghost predicate Clear(script: seq<Event>, n: nat) {
    forall i :: 0 <= i < |script| && i < n ==> script[i].Quiet?
  }

  ghost function Later(script: seq<Event>, n: nat): seq<Event> {
    if n <= |script| then script[n..] else []
  }

  /** The arrangements the protocol moves between. */
  predicate InProtocol(orig: Obj, pin: Obj, d: Dir) {
    d == Dir(Some(orig), None) || d == Dir(Some(orig), Some(pin)) || d == Dir(Some(pin), Some(orig))
  }

  ghost predicate Journaled(content: Contents, r: Resource, orig: Obj, pin: Obj) {
    ValidResource(r) && Observe(content, orig) == Original(r) && Observe(content, pin) == Pinned(r) && r.pinned.linkCount == 1
  }

  lemma ProtocolTopology(content: Contents, r: Resource, orig: Obj, pin: Obj, d: Dir)
    requires Journaled(content, r, orig, pin) && InProtocol(orig, pin, d)
    ensures var t := TopologyOf(content, r, d);
            t != Mixed && (t == Active <==> d == Dir(Some(pin), Some(orig))) &&
            (t == Staged <==> d == Dir(Some(orig), Some(pin))) && (t == Absent <==> d == Dir(Some(orig), None))
  {
    ClassifyExact(r, ObserveName(content, d.target), ObserveName(content, d.exchange));
    assert orig != pin;
  }

  /** The arrangement an action is planned for. */
  function Undone(action: Action, orig: Obj, pin: Obj): Dir {
    match action
    case ExchangeThenUnlink => Dir(Some(pin), Some(orig))
    case UnlinkStaged => Dir(Some(orig), Some(pin))
    case AlreadyAbsent => Dir(Some(orig), None)
  }

  datatype Name = Target | Exchange

  function At(d: Dir, name: Name): Option<Obj> {
    if name.Target? then d.target else d.exchange
  }

  class ResolverDirectory {
    const content: Contents
    var dir: Dir
    /** States a power cut may leave: those since the last directory sync. */
    var durable: seq<Dir>
    var script: seq<Event>
    var log: seq<Mutation>
    /** Every state the directory has been in. */
    ghost var history: seq<Dir>

    ghost predicate Valid()
      reads this
    {
      dir in durable && forall d :: d in durable ==> d in history
    }

    /** Every state so far is one of the protocol's arrangements. */
    ghost predicate Within(orig: Obj, pin: Obj)
      reads this
    {
      forall d :: d in history ==> InProtocol(orig, pin, d)
    }

    constructor (content: Contents, dir: Dir, script: seq<Event>)
      ensures Valid() && this.content == content && this.dir == dir && this.script == script
      ensures log == [] && history == [dir] && durable == [dir]
    {
      this.content, this.dir, this.durable, this.script, this.log := content, dir, [dir], script, [];
      this.history := [dir];
    }

    // --------------------------------------------------------------- system calls

    /** What the script does before the next call takes effect. */
    method Turn() returns (r: Option<Failure>)
      requires Valid()
      modifies this
      ensures Valid() && log == old(log) && forall d :: d in old(history) ==> d in history
      ensures Calm(old(script)) ==> Calm(script) && dir == old(dir) && durable == old(durable) && history == old(history)
      ensures AllQuiet(old(script)) ==> AllQuiet(script) && r.None?
      ensures r.Some? ==> r.value != Conflict
      ensures script == Later(old(script), 1)
      ensures Clear(old(script), 1) ==> r.None? && dir == old(dir) && durable == old(durable)
      ensures old(script) != [] && old(script)[0].Fail? ==> r == Some(Operational) && dir == old(dir) && durable == old(durable)
    {
      if script == [] { return None; }
      var event := script[0];
      script := script[1..];
      match event
      case Quiet => return None;
      case Foreign(d) => Install(d); return None;
      case Fail => return Some(Operational);
      case Die => return Some(Died);
    }

    method Install(d: Dir)
      requires Valid()
      modifies this`dir, this`durable, this`history
      ensures Valid() && dir == d && durable == old(durable) + [d] && history == old(history) + [d]
    {
      dir, durable, history := d, durable + [d], history + [d];
    }

    method Stat(name: Name) returns (r: Result<Option<Obj>, Failure>)
      requires Valid()
      modifies this
      ensures Valid() && log == old(log) && forall d :: d in old(history) ==> d in history
      ensures Calm(old(script)) ==> Calm(script) && dir == old(dir) && durable == old(durable) && history == old(history)
      ensures AllQuiet(old(script)) ==> AllQuiet(script) && r.Ok?
      ensures r.Ok? ==> r.value == At(dir, name)
      ensures r.Err? ==> r.error != Conflict
      ensures Clear(old(script), 1) ==> r.Ok? && script == Later(old(script), 1)
      ensures Clear(old(script), 1) ==> dir == old(dir) && durable == old(durable)
    {
      var turn := Turn();
      if turn.Some? { return Err(turn.value); }
      return Ok(At(dir, name));
    }

    /** Read-only inspection: the name must show the same file before and after. */
    method Inspect(name: Name) returns (r: Result<Option<Obj>, Failure>)
      requires Valid()
      modifies this
      ensures Valid() && log == old(log) && forall d :: d in old(history) ==> d in history
      ensures Calm(old(script)) ==> Calm(script) && dir == old(dir) && durable == old(durable) && history == old(history)
      ensures AllQuiet(old(script)) ==> AllQuiet(script) && r.Ok?
      ensures Calm(old(script)) ==> (r.Ok? ==> r.value == At(dir, name)) && (r.Err? ==> r.error != Conflict)
      ensures Clear(old(script), 2) && At(old(dir), name).Some? ==> r == Ok(At(old(dir), name)) && script == Later(old(script), 2)
      ensures Clear(old(script), 2) && At(old(dir), name).Some? ==> dir == old(dir) && durable == old(durable)
      ensures r.Ok? ==> r.value == At(dir, name)
    {
      var before := Stat(name);
      if before.Err? || before.value.None? { return before; }
      var after := Stat(name);
      if after.Err? { return after; }
      if after.value != before.value { return Err(Conflict); }
      return before;
    }

    /** `expect_component`: the name must hold exactly the expected object. */
    method Expect(name: Name, expected: Seen) returns (r: Result<Obj, Failure>)
      requires Valid()
      modifies this
      ensures Valid() && log == old(log) && forall d :: d in old(history) ==> d in history
      ensures Calm(old(script)) ==> Calm(script) && dir == old(dir) && durable == old(durable) && history == old(history)
      ensures r.Ok? ==> Observe(content, r.value) == expected
      ensures Calm(old(script)) && ObserveName(content, At(old(dir), name)) == Some(expected) ==>
                (r.Ok? ==> Some(r.value) == At(dir, name)) && (r.Err? ==> r.error != Conflict)
      ensures AllQuiet(old(script)) && ObserveName(content, At(old(dir), name)) == Some(expected) ==> AllQuiet(script) && r.Ok?
      ensures Clear(old(script), 2) && ObserveName(content, At(old(dir), name)) == Some(expected) ==>
                r.Ok? && Some(r.value) == At(old(dir), name) && script == Later(old(script), 2) && dir == old(dir) && durable == old(durable)
      ensures Calm(old(script)) && ObserveName(content, At(old(dir), name)) != Some(expected) ==> r.Err? && (AllQuiet(old(script)) ==> r == Err(Conflict))
    {
      var seen := Inspect(name);
      if seen.Err? { return Err(seen.error); }
      if seen.value.None? || Observe(content, seen.value.value) != expected { return Err(Conflict); }
      return Ok(seen.value.value);
    }

    method ReadTopology(r: Resource) returns (t: Result<Topology, Failure>)
      requires Valid()
      modifies this
      ensures Valid() && log == old(log) && forall d :: d in old(history) ==> d in history
      ensures Calm(old(script)) ==> Calm(script) && dir == old(dir) && durable == old(durable) && history == old(history)
      ensures AllQuiet(old(script)) ==> AllQuiet(script) && t.Ok?
      ensures Calm(old(script)) ==>
                (t.Ok? ==> t.value == TopologyOf(content, r, dir)) &&
                (t.Err? ==> t.error != Conflict)
      ensures Clear(old(script), 4) && old(dir).target.Some? && old(dir).exchange.Some? ==>
                t == Ok(TopologyOf(content, r, old(dir))) &&
                script == Later(old(script), 4) && dir == old(dir) && durable == old(durable)
      // whatever else happens: the exchange name is as it was seen, and the target once was
      ensures t.Ok? ==> exists d :: d in history && t.value == Classify(r, ObserveName(content, d.target), ObserveName(content, dir.exchange))
    {
      var target := Inspect(Target);
      if target.Err? { return Err(target.error); }
      var exchange := Inspect(Exchange);
      if exchange.Err? { return Err(exchange.error); }
      return Ok(Classify(r, ObserveName(content, target.value), ObserveName(content, exchange.value)));
    }

    method Sync() returns (r: Result<(), Failure>)
      requires Valid()
      modifies this
      ensures Valid() && log == old(log) && forall d :: d in old(history) ==> d in history
      ensures Calm(old(script)) ==> Calm(script) && dir == old(dir) && history == old(history)
      ensures AllQuiet(old(script)) ==> AllQuiet(script) && r.Ok?
      ensures r.Ok? ==> durable == [dir]
      ensures r.Err? ==> r.error != Conflict
      ensures old(script) != [] && old(script)[0].Fail? ==> r == Err(Operational) && script == old(script)[1..] && dir == old(dir) && durable == old(durable)
    {
      var turn := Turn();
      if turn.Some? { return Err(turn.value); }
      durable := [dir];
      return Ok(());
    }

    // The three calls that change the directory; the log says what they really did.

    method RenameExchange()
      requires Valid() && dir.target.Some? && dir.exchange.Some?
      modifies this`dir, this`durable, this`history, this`log
      ensures Valid() && log == old(log) + [Exchanged(old(dir).target.value, old(dir).exchange.value)]
      ensures dir == Dir(old(dir).exchange, old(dir).target) && durable == old(durable) + [dir] && history == old(history) + [dir]
    {
      log := log + [Exchanged(dir.target.value, dir.exchange.value)];
      Install(Dir(dir.exchange, dir.target));
    }

    method UnlinkExchange()
      requires Valid() && dir.exchange.Some?
      modifies this`dir, this`durable, this`history, this`log
      ensures Valid() && log == old(log) + [Unlinked(old(dir).exchange.value)]
      ensures dir == old(dir).(exchange := None) && durable == old(durable) + [dir] && history == old(history) + [dir]
    {
      log := log + [Unlinked(dir.exchange.value)];
      Install(dir.(exchange := None));
    }

    method LinkExchange(staged: Obj)
      requires Valid() && dir.exchange.None?
      modifies this`dir, this`durable, this`history, this`log
      ensures Valid() && log == old(log) + [Linked(staged)]
      ensures dir == old(dir).(exchange := Some(staged)) && durable == old(durable) + [dir] && history == old(history) + [dir]
    {
      log := log + [Linked(staged)];
      Install(dir.(exchange := Some(staged)));
    }

    /** Nothing was changed, and the only reason can be a conflict or a failing call. */
    ghost predicate Refused(r: Result<(), Failure>, script0: seq<Event>, dir0: Dir, durable0: seq<Dir>, log0: seq<Mutation>)
      reads this
    {
      r.Err? && log == log0 && dir == dir0 && durable == durable0 && (AllQuiet(script0) ==> r == Err(Conflict))
    }

    // ------------------------------------------------------------ exact mutations

    /** `rename_exchange_exact`: the last stat of both names and the exchange are
        one window in which nothing else happens. */
    method ExchangeExact(onTarget: Seen, onExchange: Seen) returns (r: Result<(), Failure>)
      requires Valid()
      modifies this
      ensures Valid()
      ensures log == old(log) || exists t, e ::
                log == old(log) + [Exchanged(t, e)] && Observe(content, t) == onTarget && Observe(content, e) == onExchange
      ensures r.Ok? ==> log != old(log)
      ensures Calm(old(script)) && ObserveName(content, old(dir).target) == Some(onTarget) && ObserveName(content, old(dir).exchange) == Some(onExchange) ==>
                Calm(script) && (r.Err? ==> r.error != Conflict && dir == old(dir) && history == old(history)) &&
                (r.Ok? ==> dir == Dir(old(dir).exchange, old(dir).target) && history == old(history) + [dir])
      ensures AllQuiet(old(script)) && ObserveName(content, old(dir).target) == Some(onTarget) && ObserveName(content, old(dir).exchange) == Some(onExchange) ==>
                AllQuiet(script) && r.Ok?
      ensures Calm(old(script)) && !(ObserveName(content, old(dir).target) == Some(onTarget) && ObserveName(content, old(dir).exchange) == Some(onExchange)) ==>
                Refused(r, old(script), old(dir), old(durable), old(log))
    {
      var first := Expect(Target, onTarget);
      if first.Err? { return Err(first.error); }
      var second := Expect(Exchange, onExchange);
      if second.Err? { return Err(second.error); }
      var turn := Turn();
      if turn.Some? { return Err(turn.value); }
      if dir.target != Some(first.value) || dir.exchange != Some(second.value) { return Err(Conflict); }
      RenameExchange();
      return Ok(());
    }

    /** `unlink_exact_regular_after_hook`: open and digest the quarantined file, and
        unlink it when its name still shows the same version. */
    method UnlinkExact(expected: Seen) returns (r: Result<(), Failure>)
      requires Valid() && expected.identity.kind.Regular?
      modifies this
      ensures Valid()
      ensures log == old(log) || exists o :: log == old(log) + [Unlinked(o)] && Observe(content, o) == expected
      ensures Calm(old(script)) && ObserveName(content, old(dir).exchange) == Some(expected) && expected.identity.linkCount == 1 ==>
                Calm(script) && (r.Err? ==> r.error != Conflict) && (r.Ok? ==> dir == old(dir).(exchange := None) && durable == [dir]) &&
                ((dir == old(dir) && history == old(history)) || (dir == old(dir).(exchange := None) && history == old(history) + [dir]))
      ensures AllQuiet(old(script)) && ObserveName(content, old(dir).exchange) == Some(expected) && expected.identity.linkCount == 1 ==>
                AllQuiet(script) && r.Ok?
      // a failing sync leaves the unlink done and the old directory possible
      ensures Clear(old(script), 4) && |old(script)| > 4 && old(script)[4].Fail? &&
              ObserveName(content, old(dir).exchange) == Some(expected) && expected.identity.linkCount == 1 ==>
                r == Err(Operational) && script == old(script)[5..] && dir == old(dir).(exchange := None) && durable == old(durable) + [dir]
      ensures Calm(old(script)) && ObserveName(content, old(dir).exchange) != Some(expected) ==>
                Refused(r, old(script), old(dir), old(durable), old(log))
    {
      var stable := Expect(Exchange, expected);
      if stable.Err? { return Err(stable.error); }
      var again := Stat(Exchange);
      if again.Err? { return Err(again.error); }
      if again.value != Some(stable.value) { return Err(Conflict); }
      var turn := Turn();
      if turn.Some? { return Err(turn.value); }
      if dir.exchange != Some(stable.value) { return Err(Conflict); }
      UnlinkExchange();
      if stable.value.identity.linkCount != 1 { return Err(Conflict); }
      r := Sync();
    }

    /** `link_unnamed`: the exchange name must be free. */
    method LinkUnnamed(staged: Obj) returns (r: Result<(), Failure>)
      requires Valid()
      modifies this
      ensures Valid()
      ensures log == old(log) || log == old(log) + [Linked(staged)]
      ensures Calm(old(script)) && old(dir).exchange.None? ==>
                Calm(script) && (r.Err? ==> r.error != Conflict && dir == old(dir) && history == old(history)) &&
                (r.Ok? ==> dir == old(dir).(exchange := Some(staged)) && history == old(history) + [dir])
      ensures AllQuiet(old(script)) && old(dir).exchange.None? ==> AllQuiet(script) && r.Ok?
      ensures Calm(old(script)) && old(dir).exchange.Some? ==> Refused(r, old(script), old(dir), old(durable), old(log))
      ensures Clear(old(script), 2) && old(dir).exchange.Some? ==> r == Err(Conflict) && log == old(log)
    {
      var seen := Inspect(Exchange);
      if seen.Err? { return Err(seen.error); }
      if seen.value.Some? { return Err(Conflict); }
      var turn := Turn();
      if turn.Some? { return Err(turn.value); }
      if dir.exchange.Some? { return Err(Conflict); }
      LinkExchange(staged);
      return Ok(());
    }

    // ------------------------------------------------------------------ procedures

    /** Nothing but the journaled objects was touched since `before`. */
    ghost predicate OnlyAuthorized(r: Resource, before: seq<Mutation>)
      reads this
    {
      |before| <= |log| && before == log[..|before|] &&
      forall i :: |before| <= i < |log| ==> Authorized(content, r, log[i])
    }

    /** `link_after_journal`. */
    method LinkAfterJournal(r: Resource, staged: Obj, ghost orig: Obj) returns (result: Result<(), Failure>)
      requires Valid() && Observe(content, staged) == Pinned(r)
      modifies this
      ensures Valid() && OnlyAuthorized(r, old(log))
      ensures Calm(old(script)) && Journaled(content, r, orig, staged) && old(Within(orig, staged)) && old(dir) == Dir(Some(orig), None) ==>
                Calm(script) && Within(orig, staged) && result != Err(Conflict) &&
                (dir == Dir(Some(orig), None) || dir == Dir(Some(orig), Some(staged))) &&
                (result.Ok? ==> dir == Dir(Some(orig), Some(staged)) && durable == [dir]) &&
                (AllQuiet(old(script)) ==> AllQuiet(script) && result.Ok?)
      ensures Calm(old(script)) && old(dir).exchange.Some? ==> Refused(result, old(script), old(dir), old(durable), old(log))
      ensures Clear(old(script), 2) && old(dir).exchange.Some? ==> result == Err(Conflict) && log == old(log)
      ensures result.Ok? && ValidResource(r) ==> ObserveName(content, dir.exchange) == Some(Pinned(r))
    {
      if Journaled(content, r, orig, staged) {
        ProtocolTopology(content, r, orig, staged, Dir(Some(orig), Some(staged)));
      }
      var linked := LinkUnnamed(staged);
      if linked.Err? { return linked; }
      var synced := Sync();
      if synced.Err? { return synced; }
      var t := ReadTopology(r);
      if t.Err? { return Err(t.error); }
      if t.value != Staged { return Err(Conflict); }
      if ValidResource(r) { SeenStaged(r); }
      return Ok(());
    }

    /** `activate_after_journal`. */
    method ActivateAfterJournal(r: Resource, ghost orig: Obj, ghost pin: Obj) returns (result: Result<(), Failure>)
      requires Valid()
      modifies this
      ensures Valid() && OnlyAuthorized(r, old(log))
      ensures Calm(old(script)) && Journaled(content, r, orig, pin) && old(Within(orig, pin)) && old(dir) == Dir(Some(orig), Some(pin)) ==>
                Calm(script) && Within(orig, pin) && result != Err(Conflict) &&
                (dir == Dir(Some(orig), Some(pin)) || dir == Dir(Some(pin), Some(orig))) &&
                (result.Ok? ==> dir == Dir(Some(pin), Some(orig)) && durable == [dir]) &&
                (AllQuiet(old(script)) ==> AllQuiet(script) && result.Ok?)
      ensures Calm(old(script)) && TopologyOf(content, r, old(dir)) != Staged ==> Refused(result, old(script), old(dir), old(durable), old(log))
      ensures result.Ok? && ValidResource(r) ==>
                ObserveName(content, dir.exchange) == Some(Original(r)) && exists d :: d in history && ObserveName(content, d.target) == Some(Pinned(r))
    {
      if Journaled(content, r, orig, pin) {
        ProtocolTopology(content, r, orig, pin, Dir(Some(orig), Some(pin)));
        ProtocolTopology(content, r, orig, pin, Dir(Some(pin), Some(orig)));
      }
      var before := ReadTopology(r);
      if before.Err? { return Err(before.error); }
      if before.value != Staged { return Err(Conflict); }
      var exchanged := ExchangeExact(Original(r), Pinned(r));
      if exchanged.Err? { return exchanged; }
      var synced := Sync();
      if synced.Err? { return synced; }
      var after := ReadTopology(r);
      if after.Err? { return Err(after.error); }
      if after.value != Active { return Err(Conflict); }
      if ValidResource(r) { SeenActive(r); }
      return Ok(());
    }

    /** The exchange half of recovery: from active back to staged. */
    method RestoreExchange(r: Resource, ghost orig: Obj, ghost pin: Obj) returns (result: Result<(), Failure>)
      requires Valid()
      modifies this
      ensures Valid() && OnlyAuthorized(r, old(log))
      ensures Calm(old(script)) && Journaled(content, r, orig, pin) && old(Within(orig, pin)) && old(dir) == Dir(Some(pin), Some(orig)) ==>
                Calm(script) && Within(orig, pin) && result != Err(Conflict) &&
                (dir == Dir(Some(pin), Some(orig)) || dir == Dir(Some(orig), Some(pin))) &&
                (result.Ok? ==> dir == Dir(Some(orig), Some(pin)) && durable == [dir]) &&
                (AllQuiet(old(script)) ==> AllQuiet(script) && result.Ok?)
      ensures result.Ok? && ValidResource(r) ==> ObserveName(content, dir.exchange) == Some(Pinned(r))
      ensures forall i :: |old(log)| <= i < |log| ==> !log[i].Unlinked?
    {
      if Journaled(content, r, orig, pin) {
        ProtocolTopology(content, r, orig, pin, Dir(Some(orig), Some(pin)));
      }
      var exchanged := ExchangeExact(Pinned(r), Original(r));
      if exchanged.Err? { return exchanged; }
      var synced := Sync();
      if synced.Err? { return synced; }
      var t := ReadTopology(r);
      if t.Err? { return Err(t.error); }
      if t.value != Staged { return Err(Conflict); }
      if ValidResource(r) { SeenStaged(r); }
      return Ok(());
    }

    lemma SeenStaged(r: Resource)
      requires ValidResource(r) && exists d :: d in history && Staged == Classify(r, ObserveName(content, d.target), ObserveName(content, dir.exchange))
      ensures ObserveName(content, dir.exchange) == Some(Pinned(r))
    {
      var d :| d in history && Staged == Classify(r, ObserveName(content, d.target), ObserveName(content, dir.exchange));
      ClassifyExact(r, ObserveName(content, d.target), ObserveName(content, dir.exchange));
    }

    lemma SeenActive(r: Resource)
      requires ValidResource(r) && exists d :: d in history && Active == Classify(r, ObserveName(content, d.target), ObserveName(content, dir.exchange))
      ensures ObserveName(content, dir.exchange) == Some(Original(r)) && exists d :: d in history && ObserveName(content, d.target) == Some(Pinned(r))
    {
      var d :| d in history && Active == Classify(r, ObserveName(content, d.target), ObserveName(content, dir.exchange));
      ClassifyExact(r, ObserveName(content, d.target), ObserveName(content, dir.exchange));
    }

    lemma SeenAbsent(r: Resource)
      requires ValidResource(r) && exists d :: d in history && Absent == Classify(r, ObserveName(content, d.target), ObserveName(content, dir.exchange))
      ensures dir.exchange == None && exists d :: d in history && ObserveName(content, d.target) == Some(Original(r))
    {
      var d :| d in history && Absent == Classify(r, ObserveName(content, d.target), ObserveName(content, dir.exchange));
      ClassifyExact(r, ObserveName(content, d.target), ObserveName(content, dir.exchange));
    }

    /** The mutations of a recovery plan. */
    method CarryOut(action: Action, r: Resource, ghost orig: Obj, ghost pin: Obj) returns (result: Result<(), Failure>)
      requires Valid() && ValidResource(r)
      modifies this
      ensures Valid() && OnlyAuthorized(r, old(log))
      ensures Calm(old(script)) && Journaled(content, r, orig, pin) && old(Within(orig, pin)) && old(dir) == Undone(action, orig, pin) ==>
                Calm(script) && Within(orig, pin) && InProtocol(orig, pin, dir) && result != Err(Conflict) &&
                (result.Ok? ==> dir == Dir(Some(orig), None) && durable == if action.AlreadyAbsent? then old(durable) else [dir]) &&
                (AllQuiet(old(script)) ==> AllQuiet(script) && result.Ok?)
      ensures action.UnlinkStaged? && Clear(old(script), 4) && |old(script)| > 4 && old(script)[4].Fail? &&
              Journaled(content, r, orig, pin) && old(dir) == Dir(Some(orig), Some(pin)) ==>
                result == Err(Operational) && script == old(script)[5..] && dir == Dir(Some(orig), None) && durable == old(durable) + [dir]
    {
      if action.ExchangeThenUnlink? {
        result := RestoreExchange(r, orig, pin);
        if result.Err? { return; }
      }
      if action.AlreadyAbsent? { return Ok(()); }
      ghost var mid := log;
      result := UnlinkExact(Pinned(r));
      assert OnlyAuthorized(r, old(log));
    }

    /** `execute_recovery`. `seen` is the topology it decided on. */
    method Recover(r: Resource, ghost orig: Obj, ghost pin: Obj) returns (result: Result<(), Failure>, seen: Option<Topology>)
      requires Valid() && ValidResource(r)
      modifies this
      ensures Valid() && OnlyAuthorized(r, old(log))
      ensures seen == Some(Mixed) ==> result == Err(Conflict) && log == old(log)
      ensures Calm(old(script)) ==> (seen.Some? ==> seen.value == TopologyOf(content, r, old(dir))) && (AllQuiet(old(script)) ==> seen.Some?)
      // a conflict found at the start changes nothing at all
      ensures Calm(old(script)) && TopologyOf(content, r, old(dir)) == Mixed ==> Refused(result, old(script), old(dir), old(durable), old(log))
      // whatever else happens, success was seen: no exchange name is left, and the original was at the target
      ensures result.Ok? ==> dir.exchange == None && exists d :: d in history && ObserveName(content, d.target) == Some(Original(r))
      ensures Calm(old(script)) && Journaled(content, r, orig, pin) && old(Within(orig, pin)) && InProtocol(orig, pin, old(dir)) ==>
                Calm(script) && Within(orig, pin) && InProtocol(orig, pin, dir) && result != Err(Conflict) &&
                (result.Ok? ==> dir == Dir(Some(orig), None)) &&
                (result.Ok? ==> (seen == Some(Absent) <==> old(dir) == Dir(Some(orig), None))) &&
                // the restored directory survives a power cut unless nothing was done about an unsynced one
                (result.Ok? ==> (durable == [dir] <==> old(dir) != Dir(Some(orig), None) || old(durable) == [old(dir)])) &&
                (result.Ok? && old(dir) == Dir(Some(orig), None) ==> durable == old(durable)) &&
                (AllQuiet(old(script)) ==> AllQuiet(script) && result.Ok?)
      ensures UnlinkUnsynced(old(script)) && Journaled(content, r, orig, pin) && old(dir) == Dir(Some(orig), Some(pin)) ==>
                result == Err(Operational) && script == old(script)[9..] && dir == Dir(Some(orig), None) && durable == old(durable) + [dir]
    {
      if Journaled(content, r, orig, pin) {
        forall d | InProtocol(orig, pin, d)
          ensures var t := TopologyOf(content, r, d);
                  t != Mixed && (t == Active <==> d == Dir(Some(pin), Some(orig))) &&
                  (t == Staged <==> d == Dir(Some(orig), Some(pin))) && (t == Absent <==> d == Dir(Some(orig), None)) {
          ProtocolTopology(content, r, orig, pin, d);
        }
      }
      seen := None;
      var before := ReadTopology(r);
      if before.Err? { result := Err(before.error); return; }
      seen := Some(before.value);
      var plan := PlanRecovery(before.value);
      if plan.Err? { result := Err(plan.error); return; }
      result := CarryOut(plan.value, r, orig, pin);
      if result.Err? { return; }
      var after := ReadTopology(r);
      if after.Err? { result := Err(after.error); return; }
      if after.value != Absent { result := Err(Conflict); return; }
      SeenAbsent(r);
      result := Ok(());
    }

    /** The machine comes back in some state a power cut may have left. */
    method Restart(d: Dir, script: seq<Event>)
      requires Valid() && d in durable
      modifies this`dir, this`durable, this`script, this`history
      ensures Valid() && dir == d && this.script == script && durable == [d] && history == old(history) + [d]
    {
      dir, durable, this.script := d, [d], script;
      history := history + [d];
    }

    /** A new process on the running machine: nothing became durable. */
    method Resume(script: seq<Event>)
      requires Valid()
      modifies this`script
      ensures Valid() && this.script == script
    {
      this.script := script;
    }

    /** The end of a process, with or without the machine. */
    method Interrupt(c: Crash)
      requires Valid()
      modifies this`dir, this`durable, this`script, this`history
      ensures Valid() && script == c.script
      ensures dir in old(durable) && (c.choice.None? ==> dir == old(dir) && durable == old(durable))
      ensures forall d :: d in history ==> d in old(history)
    {
      if c.choice.None? { Resume(c.script); } else { Restart(durable[c.choice.value % |durable|], c.script); }
    }
  }

  // --------------------------------------------------------------------- lifetimes

  /** How a run is interrupted: by a power cut that leaves one of the possible states,
      or by the death of the process alone; and what then happens between the calls of
      the recovery that follows. */
  datatype Crash = Crash(choice: Option<nat>, script: seq<Event>)

  /** Stage, activate and restore with an interruption anywhere, then any number of
      interrupted recoveries, then one that is left alone. Without a foreign
      writer every state ever reached is recoverable, nothing is reported as a
      conflict, and the original object ends at the target with nothing beside it. */
  method Lifetime(fs: ResolverDirectory, r: Resource, orig: Obj, pin: Obj, crashes: seq<Crash>, last: Option<nat>) returns (result: Result<(), Failure>)
    requires fs.Valid() && Journaled(fs.content, r, orig, pin) && fs.history == [fs.dir] && fs.dir == Dir(Some(orig), None)
    requires Calm(fs.script) && forall i :: 0 <= i < |crashes| ==> Calm(crashes[i].script)
    modifies fs
    ensures fs.Valid() && result.Ok? && fs.dir == Dir(Some(orig), None)
    ensures fs.Within(orig, pin) && fs.OnlyAuthorized(r, old(fs.log))
  {
    assert fs.Within(orig, pin);
    var _ := RunOnce(fs, r, orig, pin);
    for i := 0 to |crashes|
      invariant fs.Valid() && fs.Within(orig, pin) && InProtocol(orig, pin, fs.dir) && fs.OnlyAuthorized(r, old(fs.log))
    {
      fs.Interrupt(crashes[i]);
      ghost var before := fs.log;
      var attempt, _ := fs.Recover(r, orig, pin);
      assert fs.OnlyAuthorized(r, old(fs.log));
    }
    fs.Interrupt(Crash(last, []));
    ghost var before := fs.log;
    var seen;
    result, seen := fs.Recover(r, orig, pin);
    assert fs.OnlyAuthorized(r, old(fs.log));
  }

  // --------------------------------------------------------- an unlink that is not synced

  /** A recovery from staged whose last call, the sync, fails. */
  ghost predicate UnlinkUnsynced(script: seq<Event>) {
    |script| >= 9 && Clear(script, 8) && script[8].Fail?
  }

  /** An input on which recovery succeeds and a power cut still brings the exchange name
      back: the sync after the unlink fails, and the recovery that follows in the same boot
      finds nothing to do. */
  method UnsyncedUnlinkReturns() returns (fs: ResolverDirectory, orig: Obj, pin: Obj, again: Result<(), Failure>)
    ensures fresh(fs) && fs.Valid() && again.Ok? && fs.dir == Dir(Some(orig), None) && pin != orig
    ensures Dir(Some(orig), Some(pin)) in fs.durable
  {
    orig := Obj(FileIdentity(1, 1, 0, 0, 0, 1, Regular), 0);
    pin := Obj(FileIdentity(1, 2, 0, 0, 0, 1, Regular), 0);
    var content: Contents := (identity, stamp) => [];
    var r := Resource(orig.identity, Some([]), pin.identity, []);
    fs := new ResolverDirectory(content, Dir(Some(orig), Some(pin)), seq(8, i => Quiet) + [Fail]);
    assert Journaled(fs.content, r, orig, pin);
    var first, seen := fs.Recover(r, orig, pin);
    again, seen := fs.Recover(r, orig, pin);
  }

  /** One process: link, activate, restore, stopping at the first failure. */
  method RunOnce(fs: ResolverDirectory, r: Resource, orig: Obj, pin: Obj) returns (result: Result<(), Failure>)
    requires fs.Valid() && Journaled(fs.content, r, orig, pin) && fs.Within(orig, pin) && fs.dir == Dir(Some(orig), None) && Calm(fs.script)
    modifies fs
    ensures fs.Valid() && fs.Within(orig, pin) && InProtocol(orig, pin, fs.dir) && fs.OnlyAuthorized(r, old(fs.log))
    ensures result != Err(Conflict)
    ensures AllQuiet(old(fs.script)) ==> result.Ok? && fs.dir == Dir(Some(orig), None)
  {
    result := fs.LinkAfterJournal(r, pin, orig);
    if result.Err? { return; }
    result := fs.ActivateAfterJournal(r, orig, pin);
    if result.Err? { return; }
    var seen;
    result, seen := fs.Recover(r, orig, pin);
  }
}
