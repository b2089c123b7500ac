# Verified model of shadowpipe's host-steering core

This project models, in Dafny, the parts of shadowpipe that decide what a client may dial and what it does to the host
it runs on, and proves what those parts are for. It is checked with `dafny verify dfyconfig.toml`. Nothing was executed:
every statement below is a proof about the model.

The code that changes things step by step is modelled by classes, methods and loops; the code that only computes is
modelled by functions. Each method is proved against a value function or a predicate, and the results below are
statements about those: over every input, every reachable state, or every run.

**Live endpoints** (`EndpointPlan`, `EndpointRuntime`, `Endpoint`, `EndpointInvariant`, `EndpointObservation`,
`EndpointRuns`, `EndpointSafety`, `EndpointStale`, `EndpointLoops`, `EndpointCoordination`, `EndpointTransactions`, `EndpointPolicy`,
`EndpointPolicyBuild`). The coordinator is a single-owner state machine with two-phase changes. `Endpoint` gives its
state and transitions as values with the real 64- and 32-bit bounds, `EndpointCoordination` the object whose fields are
updated in place. `EndpointRuns` puts it beside a host, a set of allowed firewall tuples and a set of bypass routes, and
lets queries, leases, prepared, late, dropped and failed transactions, single host operations and compensation happen in
any order. `EndpointPolicy` sits on top: from the signed plan to the dial target.

**Crash-safe host state** (`DnsExchange`, `HostJournal`, `HostRecovery`, `StartupRecovery`, `TunnelGuards`). The two-name resolver exchange
runs one system call at a time against a script that may change the directory, fail a call or end the process between any
two of them, with every directory state a power cut may leave. Recovery runs over a write-ahead journal whose disk writes
may fail before or after taking effect, and leaves an event log whose discipline is proved, for one recovery and over
any number of restarts. The tunnel guards run any sequence of calls with failures at any step.

**Wire formats** (`Names`, `DnsNames`, `DnsAnswers`, `DnsResponse`, `DnsEncoding`, `ClientHello`). The DNS parser follows
sections 4.1.4 of RFC 1035, 3.6.2 of RFC 1034 and 3 of RFC 2308; `DnsEncoding` writes the messages it reads back. The
ClientHello extractor follows sections 4.1.2 and 4.2.8 of RFC 8446.

**Rotation, replay, allowlist** (`FailureEpoch`, `CausalReplay`, `CausalScenario`, `CausalDriver`, `ClientAuth`), with the
generic helpers in `Prelude` and `Sorting`.

What the code gets from outside is a parameter: the clock, entropy, the dummy pre-shared key, digests, signature and MAC
checks, key derivation, trace validation, the floating-point estimates, the selector, and scripts of which host, disk and
directory calls fail. Digests are arbitrary functions, so no result relies on their strength.

## What the code turned out to do

- **Stale removals.** Access in use stays in place at every point of every run for plans that only add and for plans
  prepared against the live revision (`EndpointSafety.RunServes`). The executor runs host operations before the revision
  check, so a caller that executed a stale removal plan could remove access in use until compensation; after all
  operations ran, access survives if and only if the plan names none of it (`EndpointSafety.ServedIff`).
  `EndpointStale.StaleRun` is a run from a new coordinator that does so, and `EndpointStale.StalePath` gives one from
  every state with an idle, unpublished candidate of its own address. The client prepares, executes and commits without
  giving the coordinator away in between.
- **Clock at its end.** A refresh is scheduled strictly later if and only if the 64-bit clock is not at its last value,
  because the sum saturates (`EndpointObservation.RefreshAdvances`).
- **Recovery that finds nothing to do.** Resolver recovery syncs the directory on every path except when it finds the
  exchange name already absent. A successful recovery is durable if and only if it found more than the original, or what
  it found was durable already (`DnsExchange.ResolverDirectory.Recover`). `DnsExchange.UnsyncedUnlinkReturns` is the other
  case: the sync after the unlink fails, the next recovery in the same boot succeeds, and a power cut may still bring the
  exchange name back.
- **Objects lost in set-up.** A set-up command that fails leaves a planned record, and a planned record rules out every
  later release of the firewall, because the journal never becomes active again. What can be lost is an object whose
  record is already applied when its guard is dropped and cannot remove it: after the last journal write of its own set-up
  call failed, or after the second split route failed. The ambiguity flag that would stop the teardown is cleared by the
  next successful set-up call. Every release finds exactly the diverting objects that were on the host and in no guard when
  the close began; with every live record of a route or resolver exchange held by a guard there are none
  (`TunnelGuards.FullTunnelGuards.CloseAfterSessions`). `TunnelGuards.LostRouteReleased` is a run that releases the
  firewall over a route; its journal record is then still live on disk.
- **Key shares.** A share's header must start within the declared length of the share list, but its key is bounded only by
  the extension (`ClientHello.KeyExact`, with `ClientHello.ShortList` for every length). The last key_share extension
  decides, also when it offers nothing, although RFC 8446 allows only one (`ClientHello.ExtractExact`, with
  `ClientHello.EmptySecondShare`).
- **Names.** A label byte may itself be a dot, so equal parsed names need not have equal labels
  (`DnsNames.DottedLabel`); the labels can be read off a parsed name if and only if none holds a dot
  (`DnsNames.ParsedLabels`), and for such names equality of names is equality of labels (`DnsNames.EqualNames`).
  Compression pointers may lead ahead (`DnsNames.PointerAhead`); `DnsNames.CompressedName` says what they mean and when
  they are accepted.

## Model

| member | source | states |
|---|---|---|
| `EndpointPlan.UndoRestores` | crates/shadowpipe-core/src/endpoint.rs:226-247 | running the inverses in reverse order takes every host back exactly, for any list of operations that each had an effect |
| `EndpointPlan.TransitionIsPlan` | crates/shadowpipe-core/src/endpoint.rs:1281-1331 | the built plan contains exactly the missing and surplus tuples and routes and the marker, once each, in the order allow, route, publish, deny, unroute |
| `EndpointPlan.PlanReaches` | crates/shadowpipe-core/src/endpoint.rs:1281-1331 | executing a whole plan turns the old access into exactly the new one |
| `EndpointPlan.PrefixKeeps` | crates/shadowpipe-core/src/endpoint.rs:1281-1331 | at every prefix of a plan, access that old and new state share is in place |
| `EndpointPlan.AfterPublish` | crates/shadowpipe-core/src/endpoint.rs:250-320 | from the publish marker on, everything the new snapshot may dial is allowed and routed |
| `EndpointPlan.UndoPrefix` | crates/shadowpipe-core/src/endpoint.rs:226-247 | undoing any executed prefix of any plan restores the starting sets exactly |
| `EndpointPlan.ExecAllowed` | crates/shadowpipe-core/src/endpoint.rs:206-224 | which tuples are allowed after a list of operations depends only on which operations occur in it |
| `EndpointRuntime.ValidateOrder` | crates/shadowpipe-core/src/endpoint.rs:271-320 | the loop accepts exactly the lists in safe order |
| `EndpointRuntime.PlanOrder` | crates/shadowpipe-core/src/endpoint.rs:271-320 | a plan is in safe order exactly when it publishes or adds nothing |
| `EndpointRuntime.ValidatePlan` | crates/shadowpipe-core/src/endpoint_runtime.rs:340-465 | the executor's validation accepts exactly the lists with the stated order, pairing and generation for their kind, and hands on the host operations |
| `EndpointRuntime.PlanAccepted` | crates/shadowpipe-core/src/endpoint_runtime.rs:340-465 | every plan between route-consistent hosts that only adds and publishes the next generation, or only removes, passes that validation |
| `EndpointRuntime.AcceptedGrows` | crates/shadowpipe-core/src/endpoint_runtime.rs:340-465 | whatever list the validation accepts for an addition, no prefix of it removes anything, every allowed tuple is in place, and no address is routed before a tuple of it is allowed |
| `EndpointRuntime.AcceptedShrinks` | crates/shadowpipe-core/src/endpoint_runtime.rs:340-465 | whatever list it accepts for a removal, no prefix of it adds or publishes anything, every denied tuple is gone, and no route goes before a tuple of its address is denied |
| `EndpointRuntime.AcceptedPublishes` | crates/shadowpipe-core/src/endpoint_runtime.rs:340-465 | an accepted list publishes only when it adds, then exactly at its end and a later generation; no operation occurs twice |
| `EndpointRuntime.CompensationRestores` | crates/shadowpipe-core/src/endpoint_runtime.rs:479-491 | compensating only the operations that changed something restores the host exactly, for every list from every host |
| `EndpointRuntime.HostAdapter.ApplyExact` | crates/shadowpipe-core/src/endpoint_runtime.rs:467-477 | a host call changes the host by exactly its operation and says whether it did, or fails and changes nothing |
| `EndpointRuntime.AgreeWithout` | crates/shadowpipe-core/src/endpoint_runtime.rs:479-491 | an operation that is left out shows at the end only in the tuple or route it is about, whatever runs after it |
| `EndpointRuntime.HostAdapter.RollbackChanged` | crates/shadowpipe-core/src/endpoint_runtime.rs:479-491 | inverses run last change first and go on after a failure: the host is as before but for what the inverses reported as failed are about, and only inverses of the changes can be reported; without a failing call none is |
| `EndpointRuntime.HostAdapter.Execute` | crates/shadowpipe-core/src/endpoint_runtime.rs:303-338 | on success the host has every operation and the changed ones are reported; on failure the host is as before but for what the failed inverses are about, exactly as before when none failed |
| `Endpoint.DialList` | crates/shadowpipe-core/src/endpoint.rs:1232-1261 | the snapshot list is exactly the dialable candidates, strictly sorted by key |
| `Endpoint.DedupLowest` | crates/shadowpipe-core/src/endpoint.rs:921-927 | deduplication keeps every answered address once, with its lowest TTL |
| `Endpoint.PermitsOctets` | crates/shadowpipe-core/src/endpoint.rs:103-115 | an address is permitted exactly when its octets name no unspecified, loopback, link-local, multicast or broadcast address, and no private one unless private ones are allowed |
| `EndpointInvariant.InitialInv` | crates/shadowpipe-core/src/endpoint.rs:478-562 | every accepted configuration starts in a state with the invariant: authorized candidates, exact lease counters, exact nonempty snapshot, generation within revision |
| `EndpointInvariant.DialListEquality` | crates/shadowpipe-core/src/endpoint.rs:1010-1031 | two dial lists over the same signed data are equal exactly when the same candidates are dialable |
| `EndpointInvariant.DialOrder` | crates/shadowpipe-core/src/endpoint.rs:1232-1261 | the published list is ordered by endpoint and within one by address |
| `EndpointInvariant.BeginQueryKeeps` | crates/shadowpipe-core/src/endpoint.rs:575-594 | a query raises the revision by one and touches nothing but its own sequence |
| `EndpointInvariant.QueryExact` | crates/shadowpipe-core/src/endpoint.rs:575-594 | a query succeeds exactly for a known endpoint with both counters to spare, changes nothing but the two counters, and returns the new one as its stamp |
| `EndpointInvariant.AcquireKeeps` | crates/shadowpipe-core/src/endpoint.rs:1062-1089 | a new lease takes an unused identifier, is counted once, and leaves snapshot and host access alone |
| `EndpointInvariant.AcquireOutcome` | crates/shadowpipe-core/src/endpoint.rs:1062-1089 | acquiring succeeds exactly for a dialable candidate with counters to spare; the duplicate-identifier error never occurs |
| `EndpointInvariant.AcquireExact` | crates/shadowpipe-core/src/endpoint.rs:1062-1089 | a lease changes nothing but the counters, its own entry and the count of its candidate, and names both |
| `EndpointInvariant.ReleaseOutcome` | crates/shadowpipe-core/src/endpoint.rs:1184-1212 | a release can be prepared exactly for a live lease with its own key; the counter and ownership errors never occur |
| `EndpointInvariant.ReleaseGood` | crates/shadowpipe-core/src/endpoint.rs:1094-1106 | a prepared release keeps the invariant, leads the host to the new access, spares everything else in use, passes both validators, and drops the lease |
| `EndpointInvariant.ReleaseKeeps` | crates/shadowpipe-core/src/endpoint.rs:1184-1212 | a candidate goes with a release exactly when it is the one released, is no longer published and has no other lease; every other one keeps all but its count, which again is the number of its leases |
| `EndpointInvariant.ReleaseExact` | crates/shadowpipe-core/src/endpoint.rs:1184-1212 | the released state differs only in the revision, that lease and those candidates, and has nothing to retire that was not there to retire before |
| `EndpointInvariant.RetirementGood` | crates/shadowpipe-core/src/endpoint.rs:1130-1157 | the same for a prepared retirement, which keeps every lease |
| `EndpointInvariant.RetirementExhausts` | crates/shadowpipe-core/src/endpoint.rs:1130-1167 | a committed retirement leaves nothing to retire |
| `EndpointInvariant.RehydrationOutcome` | crates/shadowpipe-core/src/endpoint.rs:659-773 | rehydration fails exactly when there is something to revive and the revision is used up; its internal checks never trip |
| `EndpointInvariant.RehydrationGood` | crates/shadowpipe-core/src/endpoint.rs:659-773 | a prepared rehydration keeps the invariant, leads the host to the new access and passes both validators |
| `EndpointInvariant.RehydrationComplete` | crates/shadowpipe-core/src/endpoint.rs:731-788 | it publishes exactly the whole signed authority, keeps every lease, only adds host access, and a second one is an exact no-op |
| `EndpointInvariant.RehydratedCandidate` | crates/shadowpipe-core/src/endpoint.rs:664-709 | exactly the candidates there were and the signed ones are in the map; published and unsigned ones are untouched, revived ones have no expiry and keep their leases |
| `EndpointInvariant.ObservedDialable` | crates/shadowpipe-core/src/endpoint.rs:955-985 | after an applied answer exactly the answered addresses of that endpoint are dialable and every other endpoint is as before |
| `EndpointInvariant.ObservedPublishesNew` | crates/shadowpipe-core/src/endpoint.rs:1010-1031 | an answer that brings a new candidate always changes the published list |
| `EndpointInvariant.AnswerableIff` | crates/shadowpipe-core/src/endpoint.rs:928-953 | neither rejection branch is taken exactly when every answered address is signed and permitted |
| `EndpointInvariant.ObservationGood` | crates/shadowpipe-core/src/endpoint.rs:596-617 | every prepared observation, whatever the network answered, keeps the invariant, leads the host to the new access, spares everything in use and passes both validators |
| `EndpointObservation.UnacceptableRetains` | crates/shadowpipe-core/src/endpoint.rs:817-953 | a stale, negative, empty, unsigned or forbidden answer changes no candidate, snapshot, lease or host access |
| `EndpointObservation.AcceptableApplies` | crates/shadowpipe-core/src/endpoint.rs:908-1031 | a current answer of signed, permitted addresses is applied: exactly those are dialable, no candidate or lease is dropped |
| `EndpointObservation.ObservationSucceeds` | crates/shadowpipe-core/src/endpoint.rs:596-617 | preparing fails exactly for an unknown endpoint or a used-up revision |
| `EndpointObservation.ObservationBooked` | crates/shadowpipe-core/src/endpoint.rs:817-1060 | every current answer is booked in full: the stamp is spent, the disposition is the one for that answer and a rejection names exactly the addresses outside the authority, the failure streak is reset, or raised by a failed lookup or a rejection without passing 32 bits, the next query is due as the lowest TTL, the negative TTL or the retry ceiling say, and no other endpoint changes |
| `EndpointObservation.StaleIgnored` | crates/shadowpipe-core/src/endpoint.rs:824-841 | any other answer changes nothing at all and keeps the schedule |
| `EndpointObservation.AnsweredCandidates` | crates/shadowpipe-core/src/endpoint.rs:955-985 | after an applied answer exactly the old and the answered candidates are there; an answered one is dialable until its lowest clamped TTL is over and keeps its leases, an unanswered one of the endpoint only stops being dialable, and no other changes |
| `EndpointObservation.StampSpent` | crates/shadowpipe-core/src/endpoint.rs:824-841 | after any observation its stamp is no longer current |
| `EndpointObservation.QuerySupersedes` | crates/shadowpipe-core/src/endpoint.rs:575-594 | a new query makes every stamp of its endpoint up to the latest stale, and its own current |
| `EndpointObservation.JitterBounds` | crates/shadowpipe-core/src/endpoint.rs:1333-1340 | the jittered delay is seventy to ninety percent of the clamped TTL |
| `EndpointObservation.JitterDrawn` | crates/shadowpipe-core/src/endpoint.rs:1333-1340 | and every ten-thousandth in that range is drawn for some entropy |
| `EndpointObservation.CeilingGrows` | crates/shadowpipe-core/src/endpoint.rs:1341-1349 | the retry ceiling never falls as failures accumulate, from one to thirty seconds |
| `EndpointObservation.CeilingDoubles` | crates/shadowpipe-core/src/endpoint.rs:1341-1349 | it is one second after the first failure and doubles with each until it is thirty, for every 32-bit streak |
| `EndpointObservation.RetryBounds` | crates/shadowpipe-core/src/endpoint.rs:1341-1349 | a retry delay lies between a quarter second and its ceiling |
| `EndpointObservation.RetryDrawn` | crates/shadowpipe-core/src/endpoint.rs:1341-1349 | and every delay in that range is drawn for some entropy |
| `EndpointObservation.RefreshAdvances` | crates/shadowpipe-core/src/endpoint.rs:882-1060 | every current observation reschedules its endpoint within an hour, strictly later if and only if the clock is not at its last value |
| `EndpointRuns.StepKeeps` | crates/shadowpipe-core/src/endpoint.rs:575-1212 | every step of coordinator, host and transaction keeps the system invariant, and live states only evolve |
| `EndpointRuns.FinishStep` | crates/shadowpipe-core/src/endpoint.rs:619-632 | finishing a transaction, committed or refused for staleness, keeps the system invariant |
| `EndpointRuns.UnwindStep` | crates/shadowpipe-core/src/endpoint_runtime.rs:479-491 | every step of compensation keeps the system invariant and the live state |
| `EndpointSafety.RunInvariant` | crates/shadowpipe-core/src/endpoint.rs:468-1212 | every state of every run has the system invariant |
| `EndpointSafety.RunEvolves` | crates/shadowpipe-core/src/endpoint.rs:468-1212 | between any two points of a run signed data is constant, counters do not go back, leases only come from fresh identifiers, and no endpoint loses its last dialable candidate |
| `EndpointSafety.RunHostExact` | crates/shadowpipe-core/src/endpoint.rs:1263-1331 | whenever no transaction is under way the host holds exactly the access of the candidate map, however many transactions failed before |
| `EndpointSafety.LeaseReleasedOnce` | crates/shadowpipe-core/src/endpoint.rs:1184-1212 | a released lease identifier never names a lease again |
| `EndpointSafety.LeaseFresh` | crates/shadowpipe-core/src/endpoint.rs:1062-1089 | an acquired identifier was live in no earlier state of the run |
| `EndpointSafety.StepGeneration` | crates/shadowpipe-core/src/endpoint.rs:1010-1031 | the generation rises by one exactly when the dialable list changes and never passes the revision, so it never saturates |
| `EndpointSafety.CommitExact` | crates/shadowpipe-core/src/endpoint.rs:619-632 | when revisions match at commit the live state is exactly the one prepared against, and the host then matches the new state |
| `EndpointSafety.UnwindCompletes` | crates/shadowpipe-core/src/endpoint_runtime.rs:479-491 | from any point of a failed transaction compensation ends with the host exactly as before |
| `EndpointSafety.FreshSpares` | crates/shadowpipe-core/src/endpoint.rs:1130-1212 | a plan prepared against the live revision removes no access that is published or leased, other than the lease it releases |
| `EndpointSafety.MonotonicSpares` | crates/shadowpipe-core/src/endpoint_runtime.rs:340-465 | an addition-only plan removes no access at all, even when stale |
| `EndpointSafety.RunServes` | crates/shadowpipe-core/src/endpoint.rs:955-1212 | at every point of every run, forwards and backwards, everything published or leased is allowed and routed, for addition-only plans and for plans prepared against the live revision |
| `EndpointSafety.ServedIff` | crates/shadowpipe-core/src/endpoint_runtime.rs:303-338 | with all operations of any plan executed, access in use is in place if and only if the plan removes none of it |
| `EndpointSafety.StaleRetirementDisturbs` | crates/shadowpipe-core/src/endpoint.rs:1130-1157 | a retirement prepared before a rehydration revives the candidate removes access then in use, for every such state |
| `EndpointStale.StalePath` | crates/shadowpipe-core/src/endpoint.rs:1130-1157 | from every state of the system with an idle, unpublished candidate that alone has its address, a prepared retirement, a committed rehydration and the late execution of the retirement lead to a state in which access in use is gone |
| `EndpointStale.StaleRun` | crates/shadowpipe-core/src/endpoint.rs:1130-1157 | such a run from a new coordinator: a query, an answer that leaves one address out, and then that path |
| `EndpointLoops.AccessRefs` | crates/shadowpipe-core/src/endpoint.rs:1263-1279 | the counted tuples and addresses are exactly the access of the candidate map, each with the number of candidates that own it |
| `EndpointLoops.TransitionPlan` | crates/shadowpipe-core/src/endpoint.rs:1281-1331 | the loops compute the plan of the value model |
| `EndpointLoops.CheckedPlan` | crates/shadowpipe-core/src/endpoint.rs:1281-1331 | the order check never rejects a plan that publishes or only removes |
| `EndpointLoops.BuildSnapshot` | crates/shadowpipe-core/src/endpoint.rs:1232-1261 | the walk computes the dial list of the value model |
| `EndpointLoops.DedupRecords` | crates/shadowpipe-core/src/endpoint.rs:921-927 | the loop computes the deduplication of the value model |
| `EndpointLoops.Renew` | crates/shadowpipe-core/src/endpoint.rs:959-973 | every answered address is dialable with its new expiry and its old lease count, and no other candidate changes |
| `EndpointLoops.Depublish` | crates/shadowpipe-core/src/endpoint.rs:975-985 | exactly the endpoint's unanswered candidates stop being dialable, nothing is removed |
| `EndpointLoops.ReviveAuthority` | crates/shadowpipe-core/src/endpoint.rs:664-709 | every signed address becomes a dialable candidate and the revived ones are reported |
| `EndpointLoops.CheckHostname` | crates/shadowpipe-core/src/endpoint.rs:1215-1230 | accepts exactly names of 1 to 253 bytes whose labels have 1 to 63 |
| `EndpointLoops.CheckEndpoint` | crates/shadowpipe-core/src/endpoint.rs:485-494 | accepts exactly valid endpoints, and says of a bad name and of port zero which it was, in that order |
| `EndpointLoops.RegisterEndpoints` | crates/shadowpipe-core/src/endpoint.rs:483-517 | succeeds exactly for a nonempty list of valid endpoints with distinct ids, and registers exactly those; the empty list has an error of its own |
| `EndpointLoops.RegisterSeeds` | crates/shadowpipe-core/src/endpoint.rs:519-550 | succeeds exactly for a nonempty list of signed and permitted seeds, and makes exactly those dialable |
| `EndpointCoordination.EndpointCoordinator.New` | crates/shadowpipe-core/src/endpoint.rs:478-562 | succeeds exactly on an acceptable configuration, in the initial state |
| `EndpointCoordination.EndpointCoordinator.BeginQuery` | crates/shadowpipe-core/src/endpoint.rs:575-594 | updates the object exactly as the value transition; an error changes nothing |
| `EndpointCoordination.EndpointCoordinator.Acquire` | crates/shadowpipe-core/src/endpoint.rs:1062-1089 | updates the object exactly as the value transition; an error changes nothing |
| `EndpointCoordination.EndpointCoordinator.ApplyPositive` | crates/shadowpipe-core/src/endpoint.rs:908-1031 | the in-place update computes the value transition, with its disposition, plan and schedule |
| `EndpointCoordination.EndpointCoordinator.ApplyObservation` | crates/shadowpipe-core/src/endpoint.rs:817-880 | the in-place update computes the value transition for every kind of answer |
| `EndpointCoordination.EndpointCoordinator.PrepareObservation` | crates/shadowpipe-core/src/endpoint.rs:596-617 | works on a clone and prepares exactly the value transition |
| `EndpointCoordination.EndpointCoordinator.PrepareRehydration` | crates/shadowpipe-core/src/endpoint.rs:659-773 | works on a clone and prepares exactly the value transition |
| `EndpointCoordination.EndpointCoordinator.PrepareRelease` | crates/shadowpipe-core/src/endpoint.rs:1094-1106 | works on a clone and prepares exactly the value transition, of which `EndpointInvariant.ReleaseExact` says what it keeps |
| `EndpointCoordination.EndpointCoordinator.PrepareRetirement` | crates/shadowpipe-core/src/endpoint.rs:1130-1157 | prepares exactly the value transition, or nothing |
| `EndpointCoordination.EndpointCoordinator.Commit` | crates/shadowpipe-core/src/endpoint.rs:619-632 | installs the prepared state exactly on an unchanged revision; otherwise nothing changes |
| `EndpointCoordination.EndpointCoordinator.Abort` | crates/shadowpipe-core/src/endpoint.rs:634-646 | succeeds exactly when a commit would and never touches the state |
| `EndpointTransactions.StageHost` | crates/shadowpipe-core/src/endpoint_runtime.rs:252-338 | on success the host has the planned access and the report suffices to undo it; a failure with clean compensation leaves it alone |
| `EndpointTransactions.CommitTransaction` | crates/shadowpipe-client/src/main.rs:4674-4748 | commits exactly the prepared state on an unchanged revision; otherwise the model is as before, and the host too but for what the inverses reported as failed are about; nothing failing and nothing stale, it commits |
| `EndpointTransactions.CleanupRetired` | crates/shadowpipe-client/src/main.rs:4827-4863 | the loop ends with exactly the candidates gone that are neither published nor leased, leases and snapshot as they were, or with the model unchanged; without a failing command it succeeds if and only if nothing is retired or a revision is left |
| `EndpointTransactions.ReleaseLease` | crates/shadowpipe-client/src/main.rs:4865-4900 | on success exactly that lease is gone, its candidate too exactly when it is neither published nor leased otherwise, nothing new is left to retire, and the host matches; on failure the model is unchanged; a live lease is released when no command fails |
| `EndpointTransactions.RehydrateAuthority` | crates/shadowpipe-client/src/main.rs:4759-4825 | on success the snapshot is the whole signed authority and every lease is kept |
| `EndpointPolicy.LookupExact` | crates/shadowpipe-core/src/endpoint_policy.rs:148-195 | lookup releases a target for exactly the candidates that present a signed address of a signed group, whoever made the candidate up |
| `EndpointPolicy.LookupSound` | crates/shadowpipe-core/src/endpoint_policy.rs:148-195 | every released target has the address, SNI, key, short id and pins of one signed endpoint, the plan's generation, and the identifiers and digest of that endpoint's own group |
| `EndpointPolicy.PublishedTargetsAreSigned` | crates/shadowpipe-core/src/endpoint_policy.rs:148-384 | in every state of every run of a built policy each published candidate passes lookup and its target is one signed endpoint, whatever the network answered |
| `EndpointPolicy.LeadingBytes` | crates/shadowpipe-core/src/endpoint_policy.rs:478-487 | the identifiers are the leading four and eight digest bytes, most significant first |
| `EndpointPolicy.AcceptedEndpoint` | crates/shadowpipe-core/src/endpoint_policy.rs:70-384 | every endpoint of an accepted plan has a usable locator, SNI, port and public address, a short id of eight bytes and one to three distinct pins |
| `EndpointPolicy.AcceptedPair` | crates/shadowpipe-core/src/endpoint_policy.rs:269-366 | any two endpoints of an accepted plan have distinct ids, and distinct addresses in one group or distinct group identifiers otherwise |
| `EndpointPolicyBuild.GroupEndpoints` | crates/shadowpipe-core/src/endpoint_policy.rs:269-288 | grouping succeeds exactly without repeated endpoint ids or addresses per group, and collects exactly each group's addresses |
| `EndpointPolicyBuild.Claim` | crates/shadowpipe-core/src/endpoint_policy.rs:421-435 | a group is admitted exactly when its three identifiers collide with no admitted group and its pins are valid |
| `EndpointPolicyBuild.BuildRegistry` | crates/shadowpipe-core/src/endpoint_policy.rs:290-366 | succeeds exactly for collision-free groups and then holds one entry, endpoint and seed list per group |
| `EndpointPolicyBuild.CoordinableAccepted` | crates/shadowpipe-core/src/endpoint_policy.rs:263-384 | the coordinator accepts what was built when the signed locators and addresses are usable |
| `EndpointPolicyBuild.AcceptedCoordinable` | crates/shadowpipe-core/src/endpoint_policy.rs:263-384 | and only then |
| `EndpointPolicyBuild.FromVerifiedPlan` | crates/shadowpipe-core/src/endpoint_policy.rs:263-384 | succeeds exactly on acceptable plans; coordinator, registry, endpoints and seeds are those of all signed groups |
| `DnsExchange.ClassifyExact` | crates/shadowpipe-core/src/dns_exchange.rs:200-224 | each recoverable topology is one exact arrangement of the two journaled objects, and no two coincide |
| `DnsExchange.ProtocolTopology` | crates/shadowpipe-core/src/dns_exchange.rs:200-239 | the three arrangements of the protocol are never classified as a conflict |
| `DnsExchange.ResolverDirectory.Expect` | crates/shadowpipe-core/src/dns_exchange.rs:619-634 | succeeds only on an object with exactly the expected identity and digest |
| `DnsExchange.ResolverDirectory.ExchangeExact` | crates/shadowpipe-core/src/dns_exchange.rs:659-683 | exchanges only the two expected objects, whatever another writer did before; without one it swaps exactly the two names, and refuses anything else with nothing changed |
| `DnsExchange.ResolverDirectory.UnlinkExact` | crates/shadowpipe-core/src/dns_exchange.rs:740-778 | unlinks only the expected object, whatever another writer did before, and makes the removal durable; without another writer it refuses anything else with nothing changed |
| `DnsExchange.ResolverDirectory.LinkAfterJournal` | crates/shadowpipe-core/src/dns_exchange.rs:1107-1131 | touches only journaled objects; interrupted anywhere it leaves absent or staged, and on success staged, durably; a taken exchange name is refused with nothing changed, and success was seen under any writer |
| `DnsExchange.ResolverDirectory.ActivateAfterJournal` | crates/shadowpipe-core/src/dns_exchange.rs:1149-1188 | touches only journaled objects; interrupted anywhere it leaves staged or active, and on success active, durably; any arrangement but staged is refused with nothing changed, and success was seen under any writer |
| `DnsExchange.ResolverDirectory.Recover` | crates/shadowpipe-core/src/dns_exchange.rs:1224-1269 | touches only journaled objects under any foreign writer. Without one it decides on the topology the directory has: a conflicting one is refused with directory, disk and log unchanged, as a conflict unless a call failed. From a protocol arrangement every ending is recoverable, success restores the original with nothing beside it, it finds nothing exactly when only the original was there, and it ends durable if and only if more was there or what was there was durable. Under any writer, success means that the exchange name is gone and the original was seen at the target |
| `DnsExchange.UnsyncedUnlinkReturns` | crates/shadowpipe-core/src/dns_exchange.rs:1224-1269 | an input on which recovery succeeds and the exchange name may still come back after a power cut |
| `DnsExchange.RunOnce` | crates/shadowpipe-core/src/dns_exchange.rs:1100-1222 | link, activate and restore, stopped anywhere, leave a recoverable directory |
| `DnsExchange.Lifetime` | crates/shadowpipe-core/src/dns_exchange.rs:1100-1269 | after any number of crashes, power cuts or deaths of the process alone, in the protocol or in recovery itself, one undisturbed recovery ends with the original at the target, no exchange name, and only journaled objects ever touched |
| `HostJournal.DurableHostJournal.Commit` | crates/shadowpipe-core/src/host_state.rs:3103-3113 | one more generation reaches the disk before memory changes; a failure leaves the disk at the old or the new one |
| `HostJournal.DurableHostJournal.BeginAdd` | crates/shadowpipe-core/src/host_state.rs:3160-3165 | on success the resource is on disk as planned; no covered resource loses its record |
| `HostJournal.DurableHostJournal.AcknowledgeAdd` | crates/shadowpipe-core/src/host_state.rs:3270-3278 | turns exactly the planned record into an applied one |
| `HostJournal.DurableHostJournal.PublishActive` | crates/shadowpipe-core/src/host_state.rs:3289-3303 | reaches the Active phase, on disk too, only with nothing planned, and changes only the phase |
| `HostJournal.DurableHostJournal.BeginRemove` | crates/shadowpipe-core/src/host_state.rs:3305-3325 | names an applied record of the resource and removes none |
| `HostJournal.DurableHostJournal.AcknowledgeRemove` | crates/shadowpipe-core/src/host_state.rs:3327-3333 | removes exactly the named record; every other resource stays covered |
| `HostJournal.DurableHostJournal.BeginCleaning` | crates/shadowpipe-core/src/host_state.rs:3335-3347 | reaches the Cleaning phase with the records unchanged |
| `HostJournal.DurableHostJournal.MarkConflict` | crates/shadowpipe-core/src/host_state.rs:3349-3360 | on success the disk holds the next generation in the Conflict phase with the records unchanged; with working writes and a generation left it succeeds |
| `HostJournal.DurableHostJournal.AcknowledgeRecoveryStep` | crates/shadowpipe-core/src/host_state.rs:3362-3380 | in the Cleaning phase removes exactly the named record, on disk before in memory |
| `HostJournal.DurableHostJournal.RemoveCompletedFile` | crates/shadowpipe-core/src/host_state.rs:3388-3392 | the file goes only when every record is removed |
| `HostJournal.PhaseMoves` | crates/shadowpipe-core/src/host_state.rs:219-231 | a journal in conflict stays in it, one in cleaning only leaves for conflict, and the two other phases may become any |
| `HostRecovery.ReadObservations` | crates/shadowpipe-core/src/host_state.rs:1318-1405 | accepts exactly observations that name each live record once and nothing else |
| `HostRecovery.Decide` | crates/shadowpipe-core/src/host_state.rs:1318-1405 | an active or ambiguous owner or a conflict anywhere suppresses every step; otherwise one step per live record, with its action, in removal order |
| `HostRecovery.LowerRanksFirst` | crates/shadowpipe-core/src/host_state.rs:713-725 | in every plan a resource of lower rank is removed before any of higher rank |
| `HostRecovery.RemovalOrder` | crates/shadowpipe-core/src/host_state.rs:713-725 | in every plan split routes go before the resolver, that before the other routes, those before the TUN, and the firewall goes last, after its endpoints |
| `HostRecovery.PlannedAction` | crates/shadowpipe-core/src/host_state.rs:1396-1405 | a step removes exactly what was seen present, and only notes what was absent |
| `HostRecovery.PreparedHostRecoveryAdapter.InspectAll` | crates/shadowpipe-core/src/host_recovery.rs:110-125 | succeeds exactly for the session, the generation and the live records it was prepared from |
| `HostRecovery.PreparedHostRecoveryAdapter.ConvergeAbsent` | crates/shadowpipe-core/src/host_recovery.rs:127-152 | refused before inspection; with exactly one owning group it ends as the script of that group says, otherwise it fails; each end leaves its event |
| `HostRecovery.PrepareAdapter` | crates/shadowpipe-core/src/host_recovery.rs:72-107 | succeeds exactly when every live record belongs to exactly one group |
| `HostRecovery.PreparedComplete` | crates/shadowpipe-core/src/host_recovery.rs:72-125 | an adapter's observations of its own journal are always complete |
| `HostRecovery.RunStep` | crates/shadowpipe-core/src/host_recovery.rs:457-488 | converge then acknowledge; a late conflict is on disk, with the records unchanged, before the refusal that names its record; any other failure leaves journal and disk as they were and names the record; with working writes the result is decided by how the convergence ended |
| `HostRecovery.RunPlan` | crates/shadowpipe-core/src/host_recovery.rs:456-492 | the loop keeps the discipline after every event and can be resumed at the step it reached; a conflict met on the way never ends as recovered or retryable and never lets the journal go; with working writes the first convergence that does not succeed decides the outcome |
| `HostRecovery.RecoverHostState` | crates/shadowpipe-core/src/host_recovery.rs:409-495 | at every point of every run: no convergence before the inspection of the same run, no acknowledgement before its own convergence, no file removal unless every record is removed in the last journal written, one generation after another with records only removed, lower ranks first; the disk holds what the last write left. An observed conflict is refused with exactly the foreign records, the host untouched and the journal durably marked, unless that write failed; a late one ends marked and refused or in a write failure; other failures end retryable with the journal in cleaning. With working writes the script of the host alone decides the outcome, and an undisturbed run recovers |
| `StartupRecovery.DisciplineJoins` | crates/shadowpipe-core/src/host_recovery.rs:409-495 | a disciplined recovery from the journal that another one left, wherever it stopped, continues the discipline of the first |
| `StartupRecovery.LeftValid` | crates/shadowpipe-core/src/host_recovery.rs:409-495 | whatever journal a recovery leaves on disk can be loaded again |
| `StartupRecovery.UnownedSeen` | crates/shadowpipe-core/src/host_recovery.rs:72-125 | when every live record has exactly one group, a record not owned by it is observed as foreign |
| `StartupRecovery.StartUp` | crates/shadowpipe-client/src/main.rs:1317-1364 | a start without a journal does nothing; a journal in conflict or with a live owner is left alone; a record that is contested, unowned or foreign leaves the host untouched and every record in place, durably marked when the write works; a late conflict keeps the journal and ends marked when writes work; a journal becomes a conflict only with cause; an undisturbed peaceful start leaves no journal |
| `StartupRecovery.StartUps` | crates/shadowpipe-client/src/main.rs:1317-1364 | over any number of starts that fail or are cut short anywhere the whole history is as disciplined as one recovery, each start with an inspection of its own; without a conflict, one undisturbed start at the end leaves no journal; a journal in conflict stays as it is |
| `TunnelGuards.FullTunnelGuards.Arm` | crates/shadowpipe-client/src/main.rs:3842-3884 | keeps the guard invariant under any journal failure; with a journal that works and each operation a planned record named once, it succeeds and exactly those records are applied |
| `TunnelGuards.FullTunnelGuards.JournaledAdd` | crates/shadowpipe-client/src/main.rs:4067-4088 | on success the object is held, on the host and recorded, and nothing else changed; a failing command loses nothing and leaves the record planned; a failing journal write loses at most that object; a failure after the host may have changed leaves the owner in doubt; when nothing fails it succeeds |
| `TunnelGuards.FullTunnelGuards.AddSshBypass` | crates/shadowpipe-client/src/main.rs:6271-6285 | on success the route is held and exactly it was added; a failure loses at most it; when nothing fails it succeeds |
| `TunnelGuards.FullTunnelGuards.AddSplitRoutes` | crates/shadowpipe-client/src/main.rs:6294-6307 | both routes are held or neither; when nothing fails exactly both are added; a refused second record and a failing removal lose the first |
| `TunnelGuards.FullTunnelGuards.JournaledRemove` | crates/shadowpipe-client/src/main.rs:4518-4539 | on success the object is gone; a live record covers it until then; when it is recorded once and nothing fails, exactly it goes from host, journal and disk; a failure after the host may have changed leaves the owner in doubt |
| `TunnelGuards.FullTunnelGuards.PrepareTunClose` | crates/shadowpipe-client/src/main.rs:4253-4336 | on success no split route, resolver exchange, bypass or SSH route is held or on the host any more; an owner in doubt refuses with nothing changed; an orderly one succeeds, with exactly the held objects gone from host and journal and the removal of the TUN recorded |
| `TunnelGuards.FullTunnelGuards.ConfirmTunGone` | crates/shadowpipe-client/src/main.rs:4342-4375 | succeeds only after the TUN was seen absent, and then closes exactly its record; a TUN that is still there is reported with the journal unchanged, one of another identity is a conflict that ends up in the journal |
| `TunnelGuards.FullTunnelGuards.ReleaseKillSwitch` | crates/shadowpipe-client/src/main.rs:4395-4429 | reached only with every diverting guard gone and the TUN seen absent; when nothing fails the firewall is released and exactly its records are closed |
| `TunnelGuards.FullTunnelGuards.FinishAfterTunClose` | crates/shadowpipe-client/src/main.rs:4342-4439 | on success nothing is left on the host and no journal on disk; a TUN of another identity never lets it succeed; when nothing fails the firewall is released, and it succeeds if and only if nothing but the TUN and the firewall has a live record |
| `TunnelGuards.FullTunnelGuards.CloseAfterSessions` | crates/shadowpipe-client/src/main.rs:4441-4447 | keeps the guard invariant under any failures; a release finds exactly the objects other than the TUN that were present and unheld before the call, none that diverts when every live record of one is held; a planned record rules a release out, and an owner in doubt does not begin; on success nothing is left on the host. When nothing fails and every held object is recorded once, the firewall is released, and the close succeeds if and only if nothing else has a live record |
| `TunnelGuards.TakenMore` | crates/shadowpipe-client/src/main.rs:4253-4336 | removing one set of recorded objects and then another is removing both at once, from host, journal and disk, with room left for the rest |
| `TunnelGuards.FullTunnelGuards.SealFailClosed` | crates/shadowpipe-client/src/main.rs:4503-4515 | the host is not touched, the firewall is never released, and the journal ends in conflict, on disk too, unless a write fails or the generation is used up; after a completed shutdown it refuses |
| `TunnelGuards.FullTunnelGuards.HandOff` | crates/shadowpipe-client/src/main.rs:4467-4497 | succeeds exactly before shutdown and handoff from a journal that automatic recovery may take, forgets every guard then and touches neither host nor journal; otherwise nothing changes |
| `TunnelGuards.FullTunnelGuards.DropGuards` | crates/shadowpipe-client/src/main.rs:5484-5525 | without an orderly close or a handoff every part of the firewall stays, only held routes go, all of them when no command fails, and the journal ends in conflict, on disk too, unless a write fails or the generation is used up; after one nothing happens |
| `TunnelGuards.FullTunnelGuards.AddBypass` | crates/shadowpipe-client/src/main.rs:4633-4653 | refused without an owner, a no-op exactly for an address it has; otherwise on success exactly that bypass is added to host, records and owner; a failure loses at most it; when nothing fails it succeeds |
| `TunnelGuards.FullTunnelGuards.RemoveBypass` | crates/shadowpipe-client/src/main.rs:4655-4668 | refused without an owner, a no-op exactly for an address it does not have; otherwise on success exactly that bypass is gone from owner and host; when nothing fails it succeeds |
| `TunnelGuards.FullTunnelGuards.PinDns` | crates/shadowpipe-client/src/main.rs:4090-4125 | refused with nothing changed while one is held; on success exactly that exchange is added and held; a failure loses at most it; when nothing fails it succeeds |
| `TunnelGuards.Run` | crates/shadowpipe-client/src/main.rs:4253-4539 | in every sequence of calls with failures anywhere, each release of the firewall came after the TUN was seen absent with nothing diverting but what a failed set-up call was to install; what is left on the host has a live record; no journal means an empty host; with a disk that works, a run that ends without a completed close or a handoff leaves a journal in conflict on disk, unless the generation is used up |
| `TunnelGuards.LostRouteReleased` | crates/shadowpipe-client/src/main.rs:4067-4088 | a run from a host with the firewall and the TUN in which the firewall is released over a route: the journal refuses the record of the second split route and the removal of the first fails |
| `FailureEpoch.SelectPublished` | crates/shadowpipe-client/src/main.rs:4952-4989 | whatever is preferred or was current, a selection is a published candidate, and there is one exactly when something is published |
| `FailureEpoch.Selected` | crates/shadowpipe-client/src/main.rs:4952-4967 | the preferred candidate is selected while it is published, and the first one otherwise |
| `FailureEpoch.Preferred` | crates/shadowpipe-client/src/main.rs:4969-4989 | after anything but a failure the current candidate stays preferred while it is published; a withdrawn one gives way to the first |
| `FailureEpoch.RecordedMeans` | crates/shadowpipe-client/src/main.rs:5016-5032 | a failure is remembered exactly when it is published, failures of another generation are forgotten, and exhaustion is reported exactly when everything published has failed and the generation was not rehydrated |
| `FailureEpoch.NotedMeans` | crates/shadowpipe-client/src/main.rs:5034-5048 | after rehydration exactly the failures that are still published are remembered |
| `FailureEpoch.SignedFailureEpoch.RecordFailure` | crates/shadowpipe-client/src/main.rs:5016-5032 | updates the epoch and reports exhaustion as the value model does |
| `FailureEpoch.SignedFailureEpoch.NoteRehydrated` | crates/shadowpipe-client/src/main.rs:5034-5048 | updates the epoch as the value model does |
| `FailureEpoch.NextSelected` | crates/shadowpipe-client/src/main.rs:4969-4989 | after a failure the next selection is the successor, going round |
| `FailureEpoch.RotationRecords` | crates/shadowpipe-client/src/main.rs:5016-5032 | the failures of a rotation report exhaustion exactly at the last candidate |
| `FailureEpoch.PublishedDistinct` | crates/shadowpipe-client/src/main.rs:4952-4967 | every published snapshot lists exactly the dialable candidates, at least one and none twice |
| `FailureEpoch.FailUntilExhausted` | crates/shadowpipe-client/src/main.rs:5384-5442 | after a reset, on any snapshot the coordinator publishes, failures try every dialable candidate exactly once and exhaustion is reported at the last and not before |
| `FailureEpoch.QuietAfterRehydration` | crates/shadowpipe-client/src/main.rs:5034-5048 | after rehydration no run of failures on that generation is reported again |
| `FailureEpoch.Reopened` | crates/shadowpipe-client/src/main.rs:5006-5032 | a reset or another generation reopens the epoch: it then reports exactly when its one failure is the whole snapshot |
| `Names.SplitJoin` | crates/shadowpipe-core/src/endpoint_dns.rs:707-748 | splitting joined labels gives them back when none contains a dot |
| `Names.SplitJoinExact` | crates/shadowpipe-core/src/endpoint_dns.rs:637-748 | splitting joined labels gives them back if and only if none contains a dot |
| `Names.JoinSplit` | crates/shadowpipe-core/src/endpoint_dns.rs:707-748 | joining a split name gives it back, for every name |
| `DnsNames.ScanName` | crates/shadowpipe-core/src/endpoint_dns.rs:637-705 | the loop terminates on every packet and computes the value parse |
| `DnsNames.NameCursor` | crates/shadowpipe-core/src/endpoint_dns.rs:637-705 | the cursor after a name lies strictly past its start and within the packet |
| `DnsNames.NameBounded` | crates/shadowpipe-core/src/endpoint_dns.rs:637-705 | every parsed name is lower-case ASCII of at most 253 bytes, with or without pointers |
| `DnsNames.Canonicalize` | crates/shadowpipe-core/src/endpoint_dns.rs:707-737 | accepts exactly host names of bounded labels and length |
| `DnsNames.CanonicalResult` | crates/shadowpipe-core/src/endpoint_dns.rs:707-737 | the canonical name is canonical and keeps its labels up to case |
| `DnsNames.EncodeName` | crates/shadowpipe-core/src/endpoint_dns.rs:739-748 | encodes exactly names whose labels fit a length byte |
| `DnsNames.NameRoundTrip` | crates/shadowpipe-core/src/endpoint_dns.rs:637-748 | an encoded canonical name, between any prefix and suffix, parses back to itself with the cursor just past it |
| `DnsNames.LowerRoundTrip` | crates/shadowpipe-core/src/endpoint_dns.rs:637-705 | any encoded ASCII labels within the bounds parse back in lower case |
| `DnsNames.CompressedName` | crates/shadowpipe-core/src/endpoint_dns.rs:637-705 | labels followed by a pointer to a name that parses are accepted if and only if the scan of the target does not come back to them, hops are left and the whole fits; the name then is those labels and the target's, and the cursor ends after the pointer |
| `DnsNames.CompressedText` | crates/shadowpipe-core/src/endpoint_dns.rs:637-705 | in text: the labels, a dot and the name at the target |
| `DnsNames.ParsedLabels` | crates/shadowpipe-core/src/endpoint_dns.rs:637-705 | the labels of a parsed name are those between its dots if and only if none holds a dot |
| `DnsNames.EqualNames` | crates/shadowpipe-core/src/endpoint_dns.rs:637-705 | two parsed names without dotted labels are equal exactly when their labels are |
| `DnsNames.DottedLabel` | crates/shadowpipe-core/src/endpoint_dns.rs:637-705 | a packet in which two names are equal and their labels are not |
| `DnsNames.PointerAhead` | crates/shadowpipe-core/src/endpoint_dns.rs:637-705 | a packet with an accepted forward pointer |
| `DnsAnswers.RrCursor` | crates/shadowpipe-core/src/endpoint_dns.rs:485-511 | a record's data lies inside the packet, strictly after its start |
| `DnsAnswers.CollectTables` | crates/shadowpipe-core/src/endpoint_dns.rs:519-559 | the tables hold exactly the facts of the answer section, or some record is unreadable or an owner has two targets |
| `DnsAnswers.WalkTables` | crates/shadowpipe-core/src/endpoint_dns.rs:567-600 | the walk returns from inside its loop on every input, so the unreachable end is never reached |
| `DnsAnswers.DedupAddresses` | crates/shadowpipe-core/src/endpoint_dns.rs:574-590 | keeps every address once, with the lowest TTL over its records and the path |
| `DnsAnswers.FollowCnameChain` | crates/shadowpipe-core/src/endpoint_dns.rs:513-601 | computes the answer that the set of facts gives, which `DnsAnswers.FollowIff` and `DnsAnswers.FollowMeaning` describe |
| `DnsAnswers.FollowMeaning` | crates/shadowpipe-core/src/endpoint_dns.rs:513-601 | a positive answer lists, strictly sorted, exactly the addresses at the end of the repetition-free alias chain from the query name, each with the lowest TTL over the chain and its records; an empty one means the chain ends in nothing |
| `DnsAnswers.FollowIff` | crates/shadowpipe-core/src/endpoint_dns.rs:513-601 | there is an answer if and only if no owner has two targets, or a target and addresses, and an alias chain from the query name ends without repetition, within the depth, at a name without alias and with no more addresses than the limit |
| `DnsAnswers.OrderIrrelevant` | crates/shadowpipe-core/src/endpoint_dns.rs:513-601 | the answer does not depend on the order or repetition of records |
| `DnsResponse.RrsTile` | crates/shadowpipe-core/src/endpoint_dns.rs:374-483 | sections tile the packet: records follow one another without leaving it |
| `DnsResponse.NegativeTtlLeast` | crates/shadowpipe-core/src/endpoint_dns.rs:603-635 | the negative TTL is the least SOA value whatever the order, and fails exactly when an SOA is unreadable |
| `DnsResponse.ReadNegativeTtl` | crates/shadowpipe-core/src/endpoint_dns.rs:603-616 | the loop computes that value |
| `DnsResponse.ParseAResponse` | crates/shadowpipe-core/src/endpoint_dns.rs:374-483 | computes the value parse of a whole response, which `DnsResponse.ResponseIff`, `DnsResponse.ResponseRefusals` and `DnsResponse.ResponseMeaning` describe |
| `DnsResponse.ResponseMeaning` | crates/shadowpipe-core/src/endpoint_dns.rs:374-473 | an accepted packet answers this transaction and question in full, its sections fill it exactly, and the answer's kind, addresses and TTLs are those of the response code, the alias chain and the SOA records |
| `DnsResponse.HeaderMeaning` | crates/shadowpipe-core/src/endpoint_dns.rs:380-408 | a header is accepted if and only if it fits: long enough, within the packet limit, this transaction, a response, a standard query without reserved bits, one question, counts within the limit |
| `DnsResponse.ResponseIff` | crates/shadowpipe-core/src/endpoint_dns.rs:374-473 | a packet is accepted if and only if the header fits and is not truncated, the question is the one asked, the sections fill the packet exactly, every SOA record of the authority section is readable and, without an error code, the answers are readable and their alias chain can be followed |
| `DnsResponse.ResponseRefusals` | crates/shadowpipe-core/src/endpoint_dns.rs:374-429 | the errors for the configuration, another transaction, a bad name and another question are given exactly for those, checked in that order |
| `DnsResponse.TruncatedIff` | crates/shadowpipe-core/src/endpoint_dns.rs:374-473 | the query is to be repeated over TCP exactly for a truncated packet that is whole otherwise |
| `DnsEncoding.WireRoundTrip` | crates/shadowpipe-core/src/endpoint_dns.rs:485-511 | an encoded record, anywhere in a packet, parses back to its owner, type, class, TTL and data, with the cursor just past it |
| `DnsEncoding.SoaRead` | crates/shadowpipe-core/src/endpoint_dns.rs:618-634 | an encoded SOA gives the smaller of its TTL and its last number, whatever its names and the numbers before |
| `DnsEncoding.MessageRoundTrip` | crates/shadowpipe-core/src/endpoint_dns.rs:374-635 | every encoded message of address and alias facts, SOA records and further records that fits the limits parses to the answer it gives: the chain's addresses, or the negative answer with the least SOA value or the default, or the failure code |
| `DnsEncoding.AddressRoundTrip` | crates/shadowpipe-core/src/endpoint_dns.rs:374-590 | the plain answer with one address gives that address with its TTL |
| `DnsResponse.BuildAQuery` | crates/shadowpipe-core/src/endpoint_dns.rs:359-372 | builds exactly the question packet of the canonical name, for exactly the acceptable names |
| `DnsResponse.EchoIsNoData` | crates/shadowpipe-core/src/endpoint_dns.rs:359-473 | any built query with only the response bit set parses as NoData with the default TTL, for every name, transaction and valid configuration |
| `ClientHello.KeyExact` | crates/shadowpipe-reality/src/parse.rs:70-88 | a key is found in a key_share body exactly when the body lists a usable share that no usable share precedes |
| `ClientHello.ShortList` | crates/shadowpipe-reality/src/parse.rs:70-88 | a single share is found for every declared list length that covers its header, also when its key runs past it, and for no shorter one |
| `ClientHello.ParseKeyShare` | crates/shadowpipe-reality/src/parse.rs:70-88 | the loop stays in range on every input and finds that key |
| `ClientHello.ExtractEncoded` | crates/shadowpipe-reality/src/parse.rs:20-66 | every encoded ClientHello yields exactly its random, its session id and what its last key_share offers |
| `ClientHello.ExtractExact` | crates/shadowpipe-reality/src/parse.rs:20-66 | fields come out exactly when the record is the encoding of a ClientHello that carries them |
| `ClientHello.EmptySecondShare` | crates/shadowpipe-reality/src/parse.rs:20-66 | a ClientHello that yields its key, and with an empty second key_share yields nothing |
| `ClientHello.RoundTrip` | crates/shadowpipe-reality/src/parse.rs:20-88 | with any extensions around the key_share and any shares around its first X25519 share, exactly the encoded random, session id and key come back |
| `ClientHello.ExtractClientHelloFields` | crates/shadowpipe-reality/src/parse.rs:20-66 | the code stays in range on every input and returns fields exactly when the record carries them |
| `CausalReplay.PayloadExact` | crates/shadowpipe-causal-replay/src/lib.rs:485-502 | the checked sum fails exactly when the true sum does not fit 64 bits |
| `CausalReplay.HasUnresolvedStall` | crates/shadowpipe-causal-replay/src/lib.rs:516-540 | reports exactly a stall of the direction that nothing later on its path resolved |
| `CausalReplay.ClassifyRun` | crates/shadowpipe-causal-replay/src/lib.rs:420-483 | classifies as the value model does |
| `CausalReplay.SuccessMeans` | crates/shadowpipe-causal-replay/src/lib.rs:420-540 | a run succeeds exactly when its evidence is conclusive and in scope, it closed cleanly after a dial, its true payload sum lies between the minimum and 64 bits, and no stall is open |
| `CausalReplay.DisposedMeans` | crates/shadowpipe-causal-replay/src/lib.rs:420-483 | each exclusion reason and the failure of the whole derivation is given exactly for its kind of evidence; a used run carries its true payload sum, closing time, outcome and open stall |
| `CausalReplay.ScopesRanked` | crates/shadowpipe-causal-replay/src/lib.rs:599-608 | the evidence scopes rank in their declared order |
| `CausalReplay.TalliedIff` | crates/shadowpipe-causal-replay/src/lib.rs:297-418 | the runs of a carrier can be tallied exactly when each of them can be classified and no observation time leaves 64 bits |
| `CausalReplay.TallyCounts` | crates/shadowpipe-causal-replay/src/lib.rs:297-418 | used, excluded and successful runs are counted as they are, and the rate samples are those of the successes that took time, in order |
| `CausalReplay.TallyNotes` | crates/shadowpipe-causal-replay/src/lib.rs:314-377 | every run is noted in its place with its window and disposition |
| `CausalReplay.TallyWindows` | crates/shadowpipe-causal-replay/src/lib.rs:297-418 | the observed and the successful windows are those of the used and of the successful runs |
| `CausalReplay.TallyObserved` | crates/shadowpipe-causal-replay/src/lib.rs:297-418 | the last observation is the latest close of a used run |
| `CausalReplay.TallySucceeded` | crates/shadowpipe-causal-replay/src/lib.rs:297-418 | the last success is the latest close of a successful run |
| `CausalReplay.TallyWorkload` | crates/shadowpipe-causal-replay/src/lib.rs:297-418 | the workload is the least payload of a successful run |
| `CausalReplay.TallyBalances` | crates/shadowpipe-causal-replay/src/lib.rs:297-418 | every run is used or excluded, every used run is one observed window, every success one successful window |
| `CausalReplay.HealthyMeans` | crates/shadowpipe-causal-replay/src/lib.rs:574-597 | healthy exactly when every run succeeds and there are enough |
| `CausalReplay.HealthMeans` | crates/shadowpipe-causal-replay/src/lib.rs:574-597 | all four verdicts: with every run used and enough of them, unreachable exactly without a success, degraded exactly with some but not all and healthy exactly with all, the last two only with enough successes and windows; unknown otherwise |
| `CausalScenario.AcceptanceKept` | crates/shadowpipe-causal-replay/src/lib.rs:127-249 | a scenario with carriers, runs, windows and set-like lists reordered is accepted exactly when the original is |
| `CausalScenario.AcceptedRun` | crates/shadowpipe-causal-replay/src/lib.rs:172-249 | every run of an accepted scenario has a valid client trace of this experiment and artifact, in a declared window that no other run of its carrier has |
| `CausalScenario.AcceptedCarriers` | crates/shadowpipe-causal-replay/src/lib.rs:172-249 | two carriers of an accepted scenario have different identifiers, the same windows and no run identifier in common |
| `CausalScenario.ReportKeptOverall` | crates/shadowpipe-causal-replay/src/lib.rs:127-295 | and has the same report |
| `CausalScenario.ReportUnique` | crates/shadowpipe-causal-replay/src/lib.rs:127-295 | there is only one report |
| `CausalScenario.ReportBalances` | crates/shadowpipe-causal-replay/src/lib.rs:251-295 | the runs counted by the validation loops are the used plus the excluded runs of the reports |
| `CausalScenario.ReportsReordered` | crates/shadowpipe-causal-replay/src/lib.rs:244-278 | a report lists every carrier of the scenario exactly once |
| `CausalScenario.CarrierBalances` | crates/shadowpipe-causal-replay/src/lib.rs:297-418 | per carrier the used and the excluded runs make up all its runs, and the probe count is the number of independent windows |
| `CausalScenario.CarrierHealth` | crates/shadowpipe-causal-replay/src/lib.rs:297-418 | the verdict of a report is that of its carrier's runs, by the number of successful windows, whatever their order |
| `CausalScenario.ReportCarries` | crates/shadowpipe-causal-replay/src/lib.rs:297-418 | a report has its carrier's identifier and exactly its declared sets, each sorted |
| `CausalScenario.HealthyCovers` | crates/shadowpipe-causal-replay/src/lib.rs:574-597 | a healthy carrier has exactly one run for every declared window, and it succeeded |
| `CausalDriver.Canonicalize` | crates/shadowpipe-causal-replay/src/lib.rs:139-170 | canonical sorting is a reordering, with every list sorted |
| `CausalDriver.CheckScenario` | crates/shadowpipe-causal-replay/src/lib.rs:172-249 | the validation loops accept exactly carriers with valid, distinct, fully covering runs over one window cohort, and count all their runs |
| `CausalDriver.CountRuns` | crates/shadowpipe-causal-replay/src/lib.rs:251-278 | the loops over the assessments count the used and the excluded runs of all reports |
| `CausalDriver.DeriveCarrier` | crates/shadowpipe-causal-replay/src/lib.rs:297-418 | derives exactly the report of the carrier, of which `CausalScenario.CarrierHealth` and `CausalScenario.CarrierBalances` say what it means |
| `CausalDriver.Replay` | crates/shadowpipe-causal-replay/src/lib.rs:127-295 | accepts exactly the acceptable scenarios, with estimates that exist, and returns their report |
| `ClientAuth.FromEntries` | crates/shadowpipe-core/src/client_auth.rs:925-940 | succeeds exactly for 1 to 256 clients with distinct key ids, sorted, and holds exactly those |
| `ClientAuth.AuthorizedClients.BeginAccess` | crates/shadowpipe-core/src/client_auth.rs:942-978 | the full scan selects the pre-shared key of the client enrolled under the id, or the dummy, and says which |
| `ClientAuth.AuthorizedClients.VerifyFinished` | crates/shadowpipe-core/src/client_auth.rs:989-1022 | the binary search accepts exactly an enrolled client whose id opened the handshake and whose two proofs check |
| `ClientAuth.AuthorizedClients.Handshake` | crates/shadowpipe-core/src/client_auth.rs:942-1022 | scan and search find the same client and the same key |
| `ClientAuth.AuthorizedClients.Revoke` | crates/shadowpipe-core/src/client_auth.rs:1119-1131 | removes exactly the named client, never the last one, and keeps the list strictly sorted |
| `ClientAuth.AllowlistFile.Load` | crates/shadowpipe-core/src/client_auth.rs:1054-1109 | loads exactly bounded, strictly sorted lists of derived ids; a missing file, a wrong size, an id not derived and a wrong order each have their error, exactly and in that order |
| `ClientAuth.AllowlistFile.EnrollClient` | crates/shadowpipe-core/src/client_auth.rs:1190-1253 | answers and changes the file exactly as the set model says; an unloadable file, an error or an exact repetition changes nothing |
| `ClientAuth.AllowlistFile.RevokeClient` | crates/shadowpipe-core/src/client_auth.rs:1268-1279 | the same for revocation |
| `ClientAuth.AfterKeeps` | crates/shadowpipe-core/src/client_auth.rs:1119-1254 | every sequence of enrollments and revocations keeps 1 to 256 clients with distinct derived ids |
| `ClientAuth.AnswerExact` | crates/shadowpipe-core/src/client_auth.rs:1119-1254 | when enrolling and revoking succeed and each error is given: exactly for an underived id, an id enrolled otherwise, a full list, the last client, an unknown one and an empty list |
| `ClientAuth.EnrollTwice` | crates/shadowpipe-core/src/client_auth.rs:1210-1227 | repeating an exact enrollment succeeds and changes nothing |
| `ClientAuth.RevokeUndoes` | crates/shadowpipe-core/src/client_auth.rs:1119-1131 | revoking a new client undoes its enrollment, except that the only client cannot be revoked |
| `ClientAuth.PerformAll` | crates/shadowpipe-core/src/client_auth.rs:1190-1279 | any sequence of operations leaves the file with exactly the clients that those whose write succeeds leave in the set model, loadable, and present if it was; each written operation answers as the ones before it allow |

## Left out

- EndpointTransactions.CommitTransaction: one method stands for the observation, rehydration, retirement and release transactions, which differ in what they prepare and whether policy expiry is checked; the expiry clock is a parameter.
- EndpointRuntime.HostAdapter.ApplyExact: a failing host call changes nothing, as the adapter contract in the source demands; that the firewall and route commands meet it is not part of this model.
- EndpointRuns.UnwindStep: in runs every inverse succeeds; what a failed one leaves behind is stated for one transaction only (`EndpointTransactions.CommitTransaction`), and transactions that start from such a host are not modelled.
- DnsExchange.ResolverDirectory.ExchangeExact: nothing else happens between the last check of both names and the exchange itself; the source has that window too and cannot close it.
- DnsExchange.ResolverDirectory.UnlinkExact: the same window between the last check and the unlink; file size limits, mount and permission checks are not modelled.
- TunnelGuards.Run: what failed set-up calls were to install is excepted, as explained above; the legacy DNS guard and the dynamic firewall allow and deny calls are not modelled.
- HostJournal.DurableHostJournal.BeginAdd: single records only; batches, compaction and the detailed checks of each resource kind are not modelled.
- StartupRecovery.StartUp: what finding the groups for a journal gives is a function of that journal; that the journal file cannot be read or is locked is not modelled.
- FailureEpoch.FailUntilExhausted: sessions, timers and back-off delays of the client loop are not modelled, only selection and accounting.
- CausalScenario.ReportKeptOverall: the selector is a function of the reports and the floating-point estimates are a partial one of the counts and samples; 64-bit overflow of the run counters themselves is not modelled.
- ClientAuth.AllowlistFile.EnrollClient: the atomic write succeeds or fails as a whole, by parameter; the lease that keeps other writers out, file ownership and the JSON and hex forms are not modelled.
- The prepared groups of firewall, route, TUN and resolver recovery are reduced to what they recognize and whether they converge; the two-look absence check of the TUN group is not modelled.
- The fixed-width message builders and encode/decode pairs of client authentication.
- Sockets, timers, the TUN device, netlink, real firewall and route commands, the restart lockdown, command-line and file handling.
- Cryptography: no secrecy, timing or collision claim is made.
- Load tests, measurement publication, profiles, volume guard and build scripts.
