/** The client's commit transactions: host prefix, expiry check, model commit and
    exact compensation, on the coordinator and adapter objects. */
module EndpointTransactions {
  import opened Prelude
  import opened EndpointPlan
  import opened EndpointRuntime
  import opened Endpoint
  import opened EndpointInvariant
  import opened EndpointCoordination
  import opened EndpointRuns

  datatype Outcome = Committed | Expired | Failed(rollbackFailures: seq<Op>)

  ghost predicate NoFaults(faults: seq<bool>) {
    forall i :: 0 <= i < |faults| ==> !faults[i]
  }

  /** Host and model agree. */
  ghost predicate Settled(coordinator: EndpointCoordinator, adapter: HostAdapter)
    reads coordinator, adapter
  {
    coordinator.Valid() && adapter.host == HostOf(coordinator.View())
  }

  lemma GoodHostOps(c: Coordinator, p: Prepared, kind: Kind, released: Option<Key>)
    requires Inv(c) && Good(c, p, kind, released)
    ensures RuntimeOk(p.operations, p.projected.snapshot.generation, kind)
    ensures Exec(HostOf(c), HostOps(p.operations)) == HostOf(p.projected) && Inv(p.projected)
  {
    GoodEvolves(c, p, kind, released);
    HostOpsExec(HostOf(c), p.operations);
  }

  /** Validation and forward execution; what came back suffices to undo it. */
  method StageHost(adapter: HostAdapter, operations: seq<Op>, target: U64, kind: Kind) returns (applied: Result<seq<Op>, seq<Op>>)
    requires RuntimeOk(operations, target, kind)
    modifies adapter
    ensures applied.Ok? ==> adapter.host == Exec(old(adapter.host), HostOps(operations))
    ensures applied.Ok? ==> Exec(adapter.host, Undo(applied.value)) == old(adapter.host)
    ensures applied.Ok? ==> forall i :: 0 <= i < |applied.value| ==> !applied.value[i].Publish?
    ensures applied.Err? ==> AgreeBut(adapter.host, old(adapter.host), applied.error)
    ensures applied.Err? && applied.error == [] ==> adapter.host == old(adapter.host)
    ensures NoFaults(old(adapter.faults)) ==> applied.Ok?
  {
    var validated := ValidatePlan(operations, target, kind);
    assert validated.Ok? && validated.value == HostOps(operations);
    HostOpsPlain(operations, target, kind);
    assert forall i :: 0 <= i < |HostOps(operations)| ==> HostOps(operations)[i] in HostOps(operations);
    applied := adapter.Execute(validated.value);
    CompensationRestores(old(adapter.host), HostOps(operations));
  }

  /** One transaction. It commits exactly the prepared state on an unchanged
      revision; otherwise model and host are as before but for what the inverses
      reported as failed are about. */
  method CommitTransaction(coordinator: EndpointCoordinator, adapter: HostAdapter, ghost base: Coordinator,
                           p: Prepared, kind: Kind, ghost released: Option<Key>, expired: bool) returns (o: Outcome)
    requires Settled(coordinator, adapter)
    requires PendingOk(coordinator.View(), Pending(base, p, kind, released))
    modifies coordinator, adapter
    ensures o.Committed? ==> coordinator.View() == p.projected && old(coordinator.View()) == base
    ensures !o.Committed? ==> coordinator.View() == old(coordinator.View())
    ensures (o.Failed? && o.rollbackFailures != []) || Settled(coordinator, adapter)
    ensures o.Failed? ==> coordinator.Valid() && AgreeBut(adapter.host, HostOf(coordinator.View()), o.rollbackFailures)
    ensures NoFaults(old(adapter.faults)) && !expired && p.base == old(coordinator.revision) ==> o.Committed?
  {
    GoodHostOps(base, p, kind, released);
    var applied := StageHost(adapter, p.operations, p.projected.snapshot.generation, kind);
    if applied.Err? {
      var aborted := coordinator.Abort(p);
      return Failed(applied.error);
    }
    if expired {
      var aborted := coordinator.Abort(p);
      var failures := adapter.RollbackChanged(applied.value);
      return if aborted.Ok? && failures == [] then Expired else Failed(failures);
    }
    var committed := coordinator.Commit(p);
    if committed.Err? {
      var failures := adapter.RollbackChanged(applied.value);
      return Failed(failures);
    }
    return Committed;
  }

  lemma RetirementShrinks(c: Coordinator)
    requires Inv(c) && PrepareRetirement(c).Ok? && PrepareRetirement(c).value.Some?
    ensures var d := PrepareRetirement(c).value.value.projected;
            d.candidates.Keys < c.candidates.Keys && d.leases == c.leases && d.snapshot == c.snapshot
  {
    var k :| k in Retirable(c.candidates);
  }

  /** Retired are those that are neither dialable nor leased. */
  lemma RetiredOut(c: Coordinator, d: Coordinator)
    requires Inv(c) && d.leases == c.leases && d.candidates == c.candidates - Retirable(c.candidates)
    ensures forall k :: k in d.candidates <==> k in c.candidates && (k in Dialable(c.candidates) || LeaseIds(d.leases, k) != {})
  {
  }

  lemma SmallerMap(a: Candidates, b: Candidates)
    requires a.Keys < b.Keys
    ensures |a| < |b|
  {
    SubsetSmaller(a.Keys, b.Keys);
    assert |a| == |a.Keys| && |b| == |b.Keys|;
  }

  lemma SubsetSmaller(a: set<Key>, b: set<Key>)
    requires a < b
    ensures |a| < |b|
  {
    assert b == a + (b - a);
  }

  /** `cleanup_retired_endpoints`: drops exactly the retired candidates, or changes
      nothing; touches neither leases nor the published snapshot. Without a failing
      command it succeeds if and only if nothing is retired or a revision is left. */
  method CleanupRetired(coordinator: EndpointCoordinator, adapter: HostAdapter) returns (ok: bool)
    requires Settled(coordinator, adapter)
    modifies coordinator, adapter
    ensures ok ==> Settled(coordinator, adapter) && PrepareRetirement(coordinator.View()) == Ok(None)
    ensures coordinator.leases == old(coordinator.leases) && coordinator.snapshot == old(coordinator.snapshot)
    ensures ok ==> coordinator.candidates == old(coordinator.candidates) - Retirable(old(coordinator.candidates))
    ensures ok ==> forall k :: k in coordinator.candidates <==>
                     k in old(coordinator.candidates) && (k in Dialable(old(coordinator.candidates)) || LeaseIds(coordinator.leases, k) != {})
    ensures !ok ==> coordinator.View() == old(coordinator.View())
    ensures NoFaults(old(adapter.faults)) ==> (ok <==> old(coordinator.revision) < U64_MAX || Retirable(old(coordinator.candidates)) == {})
  {
    ghost var start := coordinator.View();
    while true
      invariant Settled(coordinator, adapter)
      invariant if coordinator.View() == start then adapter.faults == old(adapter.faults)
                else start.revision < U64_MAX && coordinator.View().leases == start.leases && coordinator.View().snapshot == start.snapshot &&
                     coordinator.View().candidates == start.candidates - Retirable(start.candidates) && PrepareRetirement(coordinator.View()) == Ok(None)
      decreases |coordinator.candidates|
    {
      var prepared := coordinator.PrepareRetirement();
      if prepared.Err? { return false; }
      if prepared.value.None? {
        RetiredOut(start, coordinator.View());
        return true;
      }
      ghost var c := coordinator.View();
      assert c == start;
      RetirementGood(c);
      RetirementShrinks(c);
      RetirementExhausts(c);
      var p := prepared.value.value;
      SmallerMap(p.projected.candidates, c.candidates);
      var o := CommitTransaction(coordinator, adapter, c, p, Retirement, None, false);
      if !o.Committed? { return false; }
      assert coordinator.View() == p.projected;
    }
    ok := false;
  }

  /** `release_endpoint_lease`: on success the lease is gone and every other stays, and a
      depublished candidate has gone with its last lease. */
  method ReleaseLease(coordinator: EndpointCoordinator, adapter: HostAdapter, lease: Lease) returns (o: Result<Outcome, Error>)
    requires Settled(coordinator, adapter)
    modifies coordinator, adapter
    ensures o == Ok(Committed) ==> Settled(coordinator, adapter) && coordinator.leases == old(coordinator.leases) - {lease.id}
    // a depublished candidate goes with its last lease, so nothing new is left to retire
    ensures o == Ok(Committed) ==> Retirable(coordinator.candidates) == Retirable(old(coordinator.candidates))
    ensures o == Ok(Committed) ==>
              forall k :: k in coordinator.candidates <==>
                k in old(coordinator.candidates) && (k != lease.key || k in Dialable(old(coordinator.candidates)) || LeaseIds(coordinator.leases, k) != {})
    ensures o != Ok(Committed) ==> coordinator.View() == old(coordinator.View())
    ensures NoFaults(old(adapter.faults)) && old(coordinator.revision) < U64_MAX &&
            lease.id in old(coordinator.leases) && old(coordinator.leases)[lease.id] == lease.key
            ==> o == Ok(Committed)
  {
    ghost var c := coordinator.View();
    ReleaseOutcome(c, lease);
    var prepared := coordinator.PrepareRelease(lease);
    if prepared.Err? { return Err(prepared.error); }
    ReleaseGood(c, lease);
    ReleaseExact(c, lease);
    var outcome := CommitTransaction(coordinator, adapter, c, prepared.value, LeaseRelease, Some(lease.key), false);
    return Ok(outcome);
  }

  /** `commit_authority_rehydration_transaction`: on success the snapshot is the
      whole signed authority. */
  method RehydrateAuthority(coordinator: EndpointCoordinator, adapter: HostAdapter, expired: bool) returns (o: Result<Outcome, Error>)
    requires Settled(coordinator, adapter)
    modifies coordinator, adapter
    ensures o == Ok(Committed) ==>
              Settled(coordinator, adapter) && Dialable(coordinator.candidates) == AuthorityKeys(coordinator.logical) &&
              coordinator.leases == old(coordinator.leases)
    ensures o != Ok(Committed) ==> coordinator.View() == old(coordinator.View())
    ensures NoFaults(old(adapter.faults)) && !expired && old(coordinator.revision) < U64_MAX ==> o == Ok(Committed)
  {
    ghost var c := coordinator.View();
    RehydrationOutcome(c);
    var prepared := coordinator.PrepareRehydration();
    if prepared.Err? { return Err(prepared.error); }
    RehydrationGood(c);
    RehydrationPublishesAll(c);
    var outcome := CommitTransaction(coordinator, adapter, c, prepared.value, AuthorityRehydration, None, expired);
    return Ok(outcome);
  }
}
