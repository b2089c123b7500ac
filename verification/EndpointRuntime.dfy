/** The transactional executor of endpoint host mutations: plan validation,
    forward execution, and exact compensation of a failed prefix. */
module EndpointRuntime {
  import opened Prelude
  import opened EndpointPlan

  // -------------------------------------------------------------- validate_order

  ghost predicate FirstPublish(ops: seq<Op>, p: Option<nat>) {
    match p
    case None => forall i :: 0 <= i < |ops| ==> !ops[i].Publish?
    case Some(at) => at < |ops| && ops[at].Publish? && forall i :: 0 <= i < at ==> !ops[i].Publish?
  }

  predicate Around(op: Op, i: nat, p: Option<nat>) {
    (Phase(op) <= 1 ==> p.Some? && i < p.value) &&
    (Phase(op) >= 3 ==> p.None? || i > p.value)
  }

  ghost predicate AllAround(ops: seq<Op>, p: Option<nat>) {
    forall i :: 0 <= i < |ops| ==> Around(ops[i], i, p)
  }

  predicate Inverted(earlier: Op, later: Op) {
    (earlier.AddBypass? && later.Allow?) || (earlier.RemoveBypass? && later.Deny?)
  }

  ghost predicate NoInversion(ops: seq<Op>) {
    forall i, j :: 0 <= i < j < |ops| ==> !Inverted(ops[i], ops[j])
  }

  /** The safe order: additions before the publish marker, removals after it,
      firewall changes before the matching kind of route change. */
  ghost predicate OrderOk(ops: seq<Op>) {
    (exists p :: FirstPublish(ops, p) && AllAround(ops, p)) && NoInversion(ops)
  }

  lemma FirstPublishUnique(ops: seq<Op>, p: Option<nat>, q: Option<nat>)
    requires FirstPublish(ops, p) && FirstPublish(ops, q)
    ensures p == q
  {
  }

  method PublishPosition(ops: seq<Op>) returns (p: Option<nat>)
    ensures FirstPublish(ops, p)
  {
    for i := 0 to |ops|
      invariant forall j :: 0 <= j < i ==> !ops[j].Publish?
    {
      if ops[i].Publish? {
        return Some(i);
      }
    }
    return None;
  }

  method ValidateOrder(ops: seq<Op>) returns (ok: bool)
    ensures ok <==> OrderOk(ops)
  {
    var p := PublishPosition(ops);
    for i := 0 to |ops|
      invariant forall j :: 0 <= j < i ==> Around(ops[j], j, p)
    {
      if !Around(ops[i], i, p) {
        forall q | FirstPublish(ops, q) ensures !AllAround(ops, q) {
          FirstPublishUnique(ops, p, q);
        }
        return false;
      }
    }
    assert AllAround(ops, p);
    var seenAdd, seenRemove := false, false;
    for i := 0 to |ops|
      invariant seenAdd <==> exists j :: 0 <= j < i && ops[j].AddBypass?
      invariant seenRemove <==> exists j :: 0 <= j < i && ops[j].RemoveBypass?
      invariant forall j, k :: 0 <= j < k < i ==> !Inverted(ops[j], ops[k])
    {
      match ops[i]
      case AddBypass(_) => seenAdd := true;
      case Allow(_) => if seenAdd { return false; }
      case RemoveBypass(_) => seenRemove := true;
      case Deny(_) => if seenRemove { return false; }
      case Publish(_, _) =>
    }
    ok := true;
  }

  lemma PlanPublish(h: Host, g: Host, publish: Marker, ops: seq<Op>) returns (p: Option<nat>)
    requires IsPlan(h, g, publish, ops)
    ensures FirstPublish(ops, p) && (p.Some? <==> publish.Publication?)
    ensures forall i :: 0 <= i < |ops| && p.Some? && Phase(ops[i]) != 2 ==>
              (i < p.value <==> Phase(ops[i]) < 2)
  {
    if publish.Publication? {
      var op := Publish(publish.from, publish.to);
      assert op in ops;
      var at :| 0 <= at < |ops| && ops[at] == op;
      p := Some(at);
      forall i | 0 <= i < at ensures !ops[i].Publish? {
        assert ops[i] in ops;
        assert ops[i] != ops[at];
      }
    } else {
      p := None;
      forall i | 0 <= i < |ops| ensures !ops[i].Publish? {
        assert ops[i] in ops;
      }
    }
  }

  /** A plan is in the safe order exactly when it publishes or adds nothing. */
  lemma PlanOrder(h: Host, g: Host, publish: Marker, ops: seq<Op>)
    requires IsPlan(h, g, publish, ops)
    ensures OrderOk(ops) <==>
            (publish.Publication? || (g.allowed <= h.allowed && g.bypass <= h.bypass))
  {
    var p := PlanPublish(h, g, publish, ops);
    assert NoInversion(ops);
    if publish.Publication? {
      assert AllAround(ops, p);
    } else if g.allowed <= h.allowed && g.bypass <= h.bypass {
      forall i | 0 <= i < |ops| ensures Around(ops[i], i, p) {
        assert ops[i] in ops;
      }
      assert AllAround(ops, p);
    } else {
      var op := AddedOp(h, g);
      assert op in ops;
      var i :| 0 <= i < |ops| && ops[i] == op;
      assert !Around(ops[i], i, p);
      forall q | FirstPublish(ops, q) ensures !AllAround(ops, q) {
        FirstPublishUnique(ops, p, q);
      }
    }
  }

  /** Some operation a plan from `h` to `g` must add. */
  ghost function AddedOp(h: Host, g: Host): (op: Op)
    requires !(g.allowed <= h.allowed && g.bypass <= h.bypass)
    ensures op.Allow? || op.AddBypass?
    ensures Contains(h, g, NoPublication, op)
  {
    if !(g.allowed <= h.allowed) then
      var t :| t in g.allowed && t !in h.allowed; Allow(t)
    else
      var ip :| ip in g.bypass && ip !in h.bypass; AddBypass(ip)
  }

  // --------------------------------------------------------------- validate_plan

  datatype Kind = ObservationStage | AuthorityRehydration | Retirement | LeaseRelease {
    predicate Monotonic() { ObservationStage? || AuthorityRehydration? }
  }

  datatype Rejection =
    | MultiplePublishMarkers
    | PublishForbidden
    | PublishNotFinal
    | MissingPublishMarker
    | PublishTargetMismatch
    | NonAdvancingPublish
    | OperationNotAllowed
    | DuplicateHostOperation
    | UnsafeHostOrder
    | RouteWithoutMatchingFirewall(ip: Ipv4)
    | ModelOrderRejected

  function HostIp(op: Op): Ipv4
    requires !op.Publish?
  {
    match op
    case Allow(t) => t.ip
    case Deny(t) => t.ip
    case AddBypass(ip) => ip
    case RemoveBypass(ip) => ip
  }

  predicate FirewallOp(op: Op) { op.Allow? || op.Deny? }
  predicate RouteOp(op: Op) { op.AddBypass? || op.RemoveBypass? }

  predicate KindAllows(kind: Kind, op: Op) {
    if kind.Monotonic() then op.Allow? || op.AddBypass? || op.Publish?
    else op.Deny? || op.RemoveBypass?
  }

  predicate PublishFits(op: Op, i: nat, n: nat, target: U64) {
    op.Publish? ==> i + 1 == n && op.to == target && op.from < op.to
  }

  ghost predicate Covered(ops: seq<Op>, i: nat)
    requires i < |ops|
  {
    RouteOp(ops[i]) ==> exists j :: 0 <= j < i && FirewallOp(ops[j]) && HostIp(ops[j]) == HostIp(ops[i])
  }

  /** What the executor demands of the operation at position `i`. */
  ghost predicate StepOk(ops: seq<Op>, i: nat, target: U64, kind: Kind)
    requires i < |ops|
  {
    && KindAllows(kind, ops[i])
    && PublishFits(ops[i], i, |ops|, target)
    && (FirewallOp(ops[i]) ==> forall j :: 0 <= j < i ==> !RouteOp(ops[j]))
    && Covered(ops, i)
    && (forall j :: 0 <= j < i ==> ops[j] != ops[i])
  }

  /** What the executor demands of a plan before it touches the host. */
  ghost predicate RuntimeOk(ops: seq<Op>, target: U64, kind: Kind) {
    && (forall i :: 0 <= i < |ops| ==> StepOk(ops, i, target, kind))
    && (kind.Monotonic() && ops != [] ==> ops[|ops| - 1].Publish?)
    && OrderOk(ops)
  }

  /** Every address that gains or loses its route does so together with a tuple. */
  ghost predicate RoutesFollowTuples(h: Host) {
    (forall t :: t in h.allowed ==> t.ip in h.bypass) &&
    (forall ip :: ip in h.bypass ==> exists t :: t in h.allowed && t.ip == ip)
  }

  lemma RouteHasTuple(h: Host, g: Host, ip: Ipv4) returns (t: Tuple)
    requires RoutesFollowTuples(h) && RoutesFollowTuples(g)
    requires ip in g.bypass && ip !in h.bypass
    ensures t in g.allowed && t !in h.allowed && t.ip == ip
  {
    t :| t in g.allowed && t.ip == ip;
  }

  lemma PlanCovered(h: Host, g: Host, publish: Marker, ops: seq<Op>, i: nat)
    requires IsPlan(h, g, publish, ops) && i < |ops|
    requires RoutesFollowTuples(h) && RoutesFollowTuples(g)
    ensures Covered(ops, i)
  {
    var op := ops[i];
    assert op in ops;
    if RouteOp(op) {
      var t;
      var partner;
      if op.AddBypass? {
        t := RouteHasTuple(h, g, op.ip);
        partner := Allow(t);
      } else {
        t := RouteHasTuple(g, h, op.ip);
        partner := Deny(t);
      }
      assert Contains(h, g, publish, partner) && partner in ops;
      var j :| 0 <= j < |ops| && ops[j] == partner;
      assert Phase(ops[j]) < Phase(ops[i]);
      assert j < i;
    }
  }

  /** Plans between route-consistent hosts that only add and publish the next
      generation, or only remove and publish nothing, pass the executor. */
  lemma PlanAccepted(h: Host, g: Host, publish: Marker, ops: seq<Op>, target: U64, kind: Kind)
    requires IsPlan(h, g, publish, ops)
    requires RoutesFollowTuples(h) && RoutesFollowTuples(g)
    requires publish.Publication? ==> publish.from < publish.to && publish.to == target
    requires if kind.Monotonic()
             then h.allowed <= g.allowed && h.bypass <= g.bypass && (publish.Publication? || h == g)
             else g.allowed <= h.allowed && g.bypass <= h.bypass && publish.NoPublication?
    ensures RuntimeOk(ops, target, kind)
  {
    PlanOrder(h, g, publish, ops);
    var p := PlanPublish(h, g, publish, ops);
    forall i | 0 <= i < |ops| ensures StepOk(ops, i, target, kind) {
      var last := |ops| - 1;
      assert ops[i] in ops && ops[last] in ops;
      PlanCovered(h, g, publish, ops, i);
      if ops[i].Publish? {
        assert Phase(ops[i]) <= Phase(ops[last]);
        assert ops[last] == ops[i];
      }
    }
    if kind.Monotonic() && ops != [] {
      var last := |ops| - 1;
      assert ops[last] in ops;
      if publish.Publication? {
        assert p.value <= last;
        assert ops[p.value] in ops;
      }
    }
  }

  /** The host after the first `n` operations. */
  ghost function Upto(h: Host, ops: seq<Op>, n: nat): Host
    requires n <= |ops|
  {
    Exec(h, ops[..n])
  }

  lemma UptoNext(h: Host, ops: seq<Op>, n: nat)
    requires n < |ops|
    ensures Upto(h, ops, n + 1) == Apply(Upto(h, ops, n), ops[n])
  {
    assert ops[..n + 1] == ops[..n] + [ops[n]];
    ExecAppend(h, ops[..n], ops[n]);
  }

  /** Whatever host it is run on, an accepted staging plan only ever adds access, and adds
      no route before a tuple of its address is allowed. */
  lemma {:induction false} AcceptedGrows(h: Host, ops: seq<Op>, target: U64, kind: Kind, n: nat)
    requires RuntimeOk(ops, target, kind) && kind.Monotonic() && n <= |ops|
    ensures h.allowed <= Upto(h, ops, n).allowed && h.bypass <= Upto(h, ops, n).bypass
    ensures forall ip :: ip in Upto(h, ops, n).bypass && ip !in h.bypass ==> exists t :: t in Upto(h, ops, n).allowed && t.ip == ip
    ensures forall j :: 0 <= j < n && ops[j].Allow? ==> ops[j].tuple in Upto(h, ops, n).allowed
  {
    if n > 0 {
      AcceptedGrows(h, ops, target, kind, n - 1);
      UptoNext(h, ops, n - 1);
      assert StepOk(ops, n - 1, target, kind);
      if ops[n - 1].AddBypass? {
        var j :| 0 <= j < n - 1 && FirewallOp(ops[j]) && HostIp(ops[j]) == ops[n - 1].ip;
        assert StepOk(ops, j, target, kind);
        assert ops[j].tuple in Upto(h, ops, n - 1).allowed;
      }
    }
  }

  /** An accepted removal plan only ever removes access, publishes nothing, and removes no
      route before a tuple of its address is denied. */
  lemma {:induction false} AcceptedShrinks(h: Host, ops: seq<Op>, target: U64, kind: Kind, n: nat)
    requires RuntimeOk(ops, target, kind) && !kind.Monotonic() && n <= |ops|
    ensures Upto(h, ops, n).allowed <= h.allowed && Upto(h, ops, n).bypass <= h.bypass
    ensures forall j :: 0 <= j < n ==> !ops[j].Publish? && (ops[j].Deny? ==> ops[j].tuple !in Upto(h, ops, n).allowed)
    ensures forall ip :: ip in h.bypass && ip !in Upto(h, ops, n).bypass ==> exists j :: 0 <= j < n && ops[j].Deny? && ops[j].tuple.ip == ip
  {
    if n > 0 {
      AcceptedShrinks(h, ops, target, kind, n - 1);
      UptoNext(h, ops, n - 1);
      assert StepOk(ops, n - 1, target, kind);
      if ops[n - 1].RemoveBypass? {
        var j :| 0 <= j < n - 1 && FirewallOp(ops[j]) && HostIp(ops[j]) == ops[n - 1].ip;
        assert StepOk(ops, j, target, kind);
      }
    }
  }

  /** What an accepted plan publishes: the target, once, at its end, and only a staging one. */
  lemma AcceptedPublishes(ops: seq<Op>, target: U64, kind: Kind, i: nat)
    requires RuntimeOk(ops, target, kind) && i < |ops|
    ensures ops[i].Publish? <==> kind.Monotonic() && i == |ops| - 1
    ensures ops[i].Publish? ==> ops[i].to == target && ops[i].from < target
    ensures forall j :: 0 <= j < i ==> ops[j] != ops[i]
  {
    assert StepOk(ops, i, target, kind);
  }

  method CountPublishes(ops: seq<Op>) returns (n: nat)
    ensures n > 1 <==> exists i, j :: 0 <= i < j < |ops| && ops[i].Publish? && ops[j].Publish?
    ensures n > 0 <==> exists i :: 0 <= i < |ops| && ops[i].Publish?
  {
    n := 0;
    for k := 0 to |ops|
      invariant n > 1 <==> exists i, j :: 0 <= i < j < k && ops[i].Publish? && ops[j].Publish?
      invariant n > 0 <==> exists i :: 0 <= i < k && ops[i].Publish?
    {
      if ops[k].Publish? {
        n := n + 1;
      }
    }
  }

  method ValidatePlan(ops: seq<Op>, target: U64, kind: Kind) returns (r: Result<seq<Op>, Rejection>)
    ensures r.Ok? <==> RuntimeOk(ops, target, kind)
    ensures r.Ok? ==> r.value == if ops != [] && ops[|ops| - 1].Publish? then ops[..|ops| - 1] else ops
  {
    var publishes := CountPublishes(ops);
    if publishes > 1 {
      ghost var i, j :| 0 <= i < j < |ops| && ops[i].Publish? && ops[j].Publish?;
      assert !StepOk(ops, i, target, kind);
      return Err(MultiplePublishMarkers);
    }
    var operations: seq<Op> := [];
    var published := false;
    var seen: set<Op> := {};
    var firewallIps: set<Ipv4> := {};
    var routePhase := false;
    for i := 0 to |ops|
      invariant forall j :: 0 <= j < i ==> StepOk(ops, j, target, kind)
      invariant routePhase <==> exists j :: 0 <= j < i && RouteOp(ops[j])
      invariant forall ip :: ip in firewallIps <==> exists j :: 0 <= j < i && FirewallOp(ops[j]) && HostIp(ops[j]) == ip
      invariant forall op :: op in seen <==> op in operations
      invariant published ==> i == |ops| && i > 0 && ops[i - 1].Publish?
      invariant !published ==> forall j :: 0 <= j < i ==> !ops[j].Publish?
      invariant operations == if published then ops[..i - 1] else ops[..i]
    {
      var op := ops[i];
      if op.Publish? {
        assert StepOk(ops, i, target, kind) <==> kind.Monotonic() && PublishFits(op, i, |ops|, target);
        if !kind.Monotonic() { return Err(PublishForbidden); }
        if i + 1 != |ops| { return Err(PublishNotFinal); }
        if op.to != target { return Err(PublishTargetMismatch); }
        if op.from >= op.to { return Err(NonAdvancingPublish); }
        published := true;
      } else {
        assert op in operations <==> exists j :: 0 <= j < i && ops[j] == op;
        assert Covered(ops, i) <==> (RouteOp(op) ==> HostIp(op) in firewallIps);
        assert StepOk(ops, i, target, kind) <==>
          KindAllows(kind, op) && (FirewallOp(op) ==> !routePhase) &&
          (RouteOp(op) ==> HostIp(op) in firewallIps) && op !in seen;
        if !KindAllows(kind, op) { return Err(OperationNotAllowed); }
        if FirewallOp(op) {
          if routePhase { return Err(UnsafeHostOrder); }
          firewallIps := firewallIps + {HostIp(op)};
        } else {
          routePhase := true;
          if HostIp(op) !in firewallIps { return Err(RouteWithoutMatchingFirewall(HostIp(op))); }
        }
        if op in seen { return Err(DuplicateHostOperation); }
        seen := seen + {op};
        operations := operations + [op];
      }
    }
    if kind.Monotonic() && operations != [] && !published {
      return Err(MissingPublishMarker);
    }
    var ordered := ValidateOrder(ops);
    if !ordered {
      return Err(ModelOrderRejected);
    }
    return Ok(operations);
  }

  // ------------------------------------------------------- execute and roll back

  /** The operations of `ops` that change the host when run from `h`, in order:
      those the adapter reports as `Changed` rather than `AlreadyExact`. */
  function Changed(h: Host, ops: seq<Op>): seq<Op> {
    if ops == [] then [] else
      var init, last := ops[..|ops| - 1], ops[|ops| - 1];
      if Effective(Exec(h, init), last) then Changed(h, init) + [last] else Changed(h, init)
  }

  lemma {:induction false} ChangedSuffices(h: Host, ops: seq<Op>)
    ensures Exec(h, Changed(h, ops)) == Exec(h, ops)
    ensures AllEffective(h, Changed(h, ops))
  {
    if ops != [] {
      var init, last := ops[..|ops| - 1], ops[|ops| - 1];
      ChangedSuffices(h, init);
      if Effective(Exec(h, init), last) {
        ExecAppend(h, Changed(h, init), last);
        EffectiveAppend(h, Changed(h, init), last);
      }
    }
  }

  lemma EffectiveAppend(h: Host, ops: seq<Op>, op: Op)
    requires AllEffective(h, ops) && Effective(Exec(h, ops), op)
    ensures AllEffective(h, ops + [op])
  {
    var all := ops + [op];
    forall i | 0 <= i < |all| ensures Effective(Exec(h, all[..i]), all[i]) {
      assert all[..i] == if i < |ops| then ops[..i] else ops;
      assert i < |ops| ==> all[i] == ops[i];
    }
  }

  /** Compensating only the changed operations restores the host exactly, for
      every list of operations run from every host. */
  lemma CompensationRestores(h: Host, ops: seq<Op>)
    ensures Exec(Exec(h, ops), Undo(Changed(h, ops))) == h
  {
    ChangedSuffices(h, ops);
    UndoRestores(h, Changed(h, ops));
  }

  /** The hosts differ at most in what the given operations are about. */
  ghost predicate AgreeBut(h: Host, g: Host, ops: seq<Op>) {
    && (forall t :: Allow(t) !in ops && Deny(t) !in ops ==> (t in h.allowed <==> t in g.allowed))
    && forall ip :: AddBypass(ip) !in ops && RemoveBypass(ip) !in ops ==> (ip in h.bypass <==> ip in g.bypass)
  }

  lemma AgreeOnAll(h: Host, g: Host)
    requires AgreeBut(h, g, [])
    ensures h == g
  {
    assert forall t :: t in h.allowed <==> t in g.allowed;
    assert forall ip :: ip in h.bypass <==> ip in g.bypass;
  }

  lemma {:induction false} AgreeAfter(h: Host, g: Host, ops: seq<Op>, but: seq<Op>)
    requires AgreeBut(h, g, but)
    ensures AgreeBut(Exec(h, ops), Exec(g, ops), but)
  {
    if ops != [] { AgreeAfter(h, g, ops[..|ops| - 1], but); }
  }

  /** An operation left out shows only in what it is about. */
  lemma AgreeWithout(h: Host, op: Op, ops: seq<Op>, g: Host, but: seq<Op>)
    requires AgreeBut(Exec(h, [op] + ops), g, but)
    ensures AgreeBut(Exec(h, ops), g, but + [op])
  {
    ExecConcat(h, [op], ops);
    ExecAppend(h, [], op);
    assert AgreeBut(h, Exec(h, [op]), [op]);
    AgreeAfter(h, Exec(h, [op]), ops, [op]);
  }

  /** A privileged host adapter; `faults` scripts which calls fail. A failing
      call changes nothing. */
  class HostAdapter {
    var host: Host
    var faults: seq<bool>

    method ApplyExact(op: Op) returns (failed: bool, changed: bool)
      modifies this
      ensures failed ==> host == old(host)
      ensures !failed ==> host == Apply(old(host), op) && (changed <==> Effective(old(host), op))
      ensures failed <==> old(faults) != [] && old(faults)[0]
      ensures faults == if old(faults) == [] then [] else old(faults)[1..]
    {
      failed := faults != [] && faults[0];
      faults := if faults == [] then [] else faults[1..];
      changed := Effective(host, op);
      if !failed {
        host := Apply(host, op);
      }
    }

    /** Runs every inverse, last change first, going on after a failed one: the host is
        restored but for what the failed ones are about. */
    method RollbackChanged(changed: seq<Op>) returns (failures: seq<Op>)
      requires forall i :: 0 <= i < |changed| ==> !changed[i].Publish?
      modifies this
      ensures AgreeBut(host, Exec(old(host), Undo(changed)), failures)
      ensures forall op :: op in failures ==> op in Undo(changed)
      ensures (forall i :: 0 <= i < |old(faults)| ==> !old(faults)[i]) ==> failures == []
      ensures failures == [] ==> host == Exec(old(host), Undo(changed))
    {
      failures := [];
      var rest := changed;
      while rest != []
        invariant |rest| <= |changed| && rest == changed[..|rest|]
        invariant AgreeBut(Exec(host, Undo(rest)), Exec(old(host), Undo(changed)), failures)
        invariant forall op :: op in failures || op in Undo(rest) ==> op in Undo(changed)
        invariant |faults| <= |old(faults)| && faults == old(faults)[|old(faults)| - |faults|..]
        invariant (forall i :: 0 <= i < |old(faults)| ==> !old(faults)[i]) ==> failures == []
      {
        var last := rest[|rest| - 1];
        var inverse := HostInverse(last).value;
        ghost var before := host;
        ghost var shorter := rest[..|rest| - 1];
        assert Undo(rest) == [inverse] + Undo(shorter);
        AgreeWithout(before, inverse, Undo(shorter), Exec(old(host), Undo(changed)), failures);
        ExecConcat(before, [inverse], Undo(shorter));
        ExecAppend(before, [], inverse);
        var failed, _ := ApplyExact(inverse);
        if failed {
          failures := failures + [inverse];
        }
        rest := rest[..|rest| - 1];
      }
      if failures == [] { AgreeOnAll(host, Exec(old(host), Undo(changed))); }
    }

    /** Forward execution with compensation of the changed prefix on failure. */
    method Execute(ops: seq<Op>) returns (r: Result<seq<Op>, seq<Op>>)
      requires forall i :: 0 <= i < |ops| ==> !ops[i].Publish?
      modifies this
      ensures r.Ok? ==> host == Exec(old(host), ops) && r.value == Changed(old(host), ops)
      ensures r.Ok? ==> forall j :: 0 <= j < |r.value| ==> !r.value[j].Publish?
      ensures r.Err? ==> AgreeBut(host, old(host), r.error)
      ensures r.Err? && r.error == [] ==> host == old(host)
      ensures (forall i :: 0 <= i < |old(faults)| ==> !old(faults)[i]) ==> r.Ok?
    {
      var changed: seq<Op> := [];
      for i := 0 to |ops|
        invariant host == Exec(old(host), ops[..i])
        invariant changed == Changed(old(host), ops[..i])
        invariant forall j :: 0 <= j < |changed| ==> !changed[j].Publish?
        invariant |faults| <= |old(faults)| && faults == old(faults)[|old(faults)| - |faults|..]
      {
        assert ops[..i + 1] == ops[..i] + [ops[i]];
        ExecAppend(old(host), ops[..i], ops[i]);
        assert ops[..i + 1][..i] == ops[..i];
        var failed, didChange := ApplyExact(ops[i]);
        if failed {
          var failures := RollbackChanged(changed);
          CompensationRestores(old(host), ops[..i]);
          return Err(failures);
        }
        if didChange {
          changed := changed + [ops[i]];
        }
      }
      assert ops[..|ops|] == ops;
      return Ok(changed);
    }
  }
}
