/** What every transition of the endpoint coordinator keeps. */
module EndpointInvariant {
  import opened Prelude
  import opened Ordered
  import opened EndpointPlan
  import opened EndpointRuntime
  import opened Endpoint

  // ------------------------------------------------------------------ invariant

  ghost function LeaseIds(leases: map<U64, Key>, k: Key): set<U64> {
    set id | id in leases && leases[id] == k
  }

  ghost predicate Authorized(logical: Logicals, k: Key) {
    k.logical in logical &&
    k.ip in logical[k.logical].spec.authority.allowed &&
    logical[k.logical].spec.addressPolicy.Permits(k.ip)
  }

  /** Every signed address passes its endpoint's address policy. */
  ghost predicate AuthorityPermitted(logical: Logicals) {
    forall k :: k in AuthorityKeys(logical) ==> Authorized(logical, k)
  }

  ghost predicate LeasesExact(c: Coordinator) {
    1 <= c.nextLeaseId &&
    (forall id :: id in c.leases ==> 1 <= id < c.nextLeaseId && c.leases[id] in c.candidates) &&
    (forall k :: k in c.candidates ==> c.candidates[k].leases == |LeaseIds(c.leases, k)|)
  }

  ghost predicate SnapshotExact(c: Coordinator)
    requires Wellformed(c)
  {
    c.snapshot.candidates == DialList(c.logical, c.candidates) && Dialable(c.candidates) != {}
  }

  ghost predicate Inv(c: Coordinator) {
    match c case Coordinator(revision, logical, candidates, _, _, snapshot) =>
    && Wellformed(c)
    && AuthorityPermitted(logical)
    && (forall k :: k in candidates ==> Authorized(logical, k))
    && LeasesExact(c)
    && SnapshotExact(c)
    && 1 <= snapshot.generation <= revision
  }

  ghost function HostOf(c: Coordinator): Host
    requires Wellformed(c)
  {
    Access(c.logical, c.candidates.Keys)
  }

  /** Nothing signed ever changes: only schedules and counters do. */
  ghost predicate SameSpecs(a: Logicals, b: Logicals) {
    a.Keys == b.Keys && forall l :: l in a ==> a[l].spec == b[l].spec
  }

  lemma InitialSpec(c: Coordinator, endpoints: seq<LogicalEndpoint>, seeds: seq<SeedCandidate>, now: U64, l: LogicalId) returns (j: nat)
    requires Accepts(endpoints, seeds) && IsInitial(c, endpoints, seeds, now) && l in c.logical
    ensures j < |endpoints| && endpoints[j].id == l && c.logical[l].spec == endpoints[j] && ValidEndpoint(endpoints[j])
  {
    j :| 0 <= j < |endpoints| && endpoints[j].id == l;
  }

  lemma InitialAuthority(c: Coordinator, endpoints: seq<LogicalEndpoint>, seeds: seq<SeedCandidate>, now: U64, k: Key)
    requires Accepts(endpoints, seeds) && IsInitial(c, endpoints, seeds, now) && k in AuthorityKeys(c.logical)
    ensures Authorized(c.logical, k)
  {
    AuthorityKeysMember(c.logical, k);
    var j := InitialSpec(c, endpoints, seeds, now, k.logical);
  }

  lemma InitialSeed(c: Coordinator, endpoints: seq<LogicalEndpoint>, seeds: seq<SeedCandidate>, now: U64, k: Key)
    requires Accepts(endpoints, seeds) && IsInitial(c, endpoints, seeds, now) && k in c.candidates
    ensures Authorized(c.logical, k)
  {
    assert HasSeed(seeds, k);
    var i :| 0 <= i < |seeds| && seeds[i] == SeedCandidate(k.logical, k.ip);
    assert SeedFits(endpoints, seeds[i]);
  }

  /** Every accepted configuration starts in a state with the invariant. */
  lemma InitialInv(c: Coordinator, endpoints: seq<LogicalEndpoint>, seeds: seq<SeedCandidate>, now: U64)
    requires Accepts(endpoints, seeds) && IsInitial(c, endpoints, seeds, now)
    ensures Inv(c)
  {
    forall k | k in AuthorityKeys(c.logical) ensures Authorized(c.logical, k) {
      InitialAuthority(c, endpoints, seeds, now, k);
    }
    forall k | k in c.candidates ensures Authorized(c.logical, k) {
      InitialSeed(c, endpoints, seeds, now, k);
    }
    var k := Key(seeds[0].logical, seeds[0].ip);
    assert HasSeed(seeds, k) && k in Dialable(c.candidates);
    forall k | k in c.candidates ensures |LeaseIds(c.leases, k)| == 0 {
      assert LeaseIds(c.leases, k) == {};
    }
  }

  // ------------------------------------------------------------- frame reasoning

  lemma AuthorityKeysMember(logical: Logicals, k: Key)
    ensures k in AuthorityKeys(logical) <==>
            k.logical in logical && k.ip in logical[k.logical].spec.authority.allowed
  {
    if k.logical in logical && k.ip in logical[k.logical].spec.authority.allowed {
      assert k == Key(k.logical, k.ip);
    }
  }

  lemma SpecsFrame(a: Logicals, b: Logicals, candidates: Candidates)
    requires SameSpecs(a, b) && KeysKnown(a, candidates.Keys)
    ensures KeysKnown(b, candidates.Keys)
    ensures Access(a, candidates.Keys) == Access(b, candidates.Keys)
    ensures DialList(a, candidates) == DialList(b, candidates)
  {
    forall k | k in candidates.Keys
      ensures a[k.logical].spec.TupleAt(k.ip) == b[k.logical].spec.TupleAt(k.ip) {
    }
    assert Access(a, candidates.Keys).allowed == Access(b, candidates.Keys).allowed;
    SortedUnique(DialList(a, candidates), DialList(b, candidates), DialRank);
  }

  lemma SpecsAuthority(a: Logicals, b: Logicals)
    requires SameSpecs(a, b)
    ensures AuthorityKeys(a) == AuthorityKeys(b)
    ensures forall k :: Authorized(a, k) <==> Authorized(b, k)
  {
    forall k ensures k in AuthorityKeys(a) <==> k in AuthorityKeys(b) {
      AuthorityKeysMember(a, k);
      AuthorityKeysMember(b, k);
    }
  }

  lemma DialListUnique(logical: Logicals, candidates: Candidates, r: seq<DialCandidate>)
    requires KeysKnown(logical, candidates.Keys) && IsDialList(logical, candidates, r)
    ensures r == DialList(logical, candidates)
  {
    SortedUnique(r, DialList(logical, candidates), DialRank);
  }

  lemma DialListEmpty(logical: Logicals, candidates: Candidates)
    requires KeysKnown(logical, candidates.Keys)
    ensures DialList(logical, candidates) == [] <==> Dialable(candidates) == {}
  {
    var ds := DialList(logical, candidates);
    assert ds != [] ==> ds[0].key in Dialable(candidates);
    assert forall k :: k in Dialable(candidates) ==> Dial(logical, k) in ds;
  }

  /** Two dial lists over the same signed specifications are equal exactly when
      the same candidates are dialable. */
  lemma DialListEquality(logical: Logicals, a: Candidates, b: Candidates)
    requires KeysKnown(logical, a.Keys) && KeysKnown(logical, b.Keys)
    ensures DialList(logical, a) == DialList(logical, b) <==> Dialable(a) == Dialable(b)
  {
    if Dialable(a) == Dialable(b) {
      SortedUnique(DialList(logical, a), DialList(logical, b), DialRank);
    } else {
      var k :| k in Dialable(a) <==> k !in Dialable(b);
      assert Dial(logical, k) in DialList(logical, a) <==> Dial(logical, k) !in DialList(logical, b);
    }
  }

  lemma HostRoutes(c: Coordinator)
    requires Wellformed(c)
    ensures RoutesFollowTuples(HostOf(c))
  {
    var h := HostOf(c);
    forall ip | ip in h.bypass ensures exists t :: t in h.allowed && t.ip == ip {
      var k :| k in c.candidates.Keys && k.ip == ip;
      var t := c.logical[k.logical].spec.TupleAt(k.ip);
      assert t in h.allowed && t.ip == ip;
    }
  }

  lemma AccessMonotone(logical: Logicals, a: set<Key>, b: set<Key>)
    requires KeysKnown(logical, b) && a <= b
    ensures KeysKnown(logical, a)
    ensures Access(logical, a).allowed <= Access(logical, b).allowed
    ensures Access(logical, a).bypass <= Access(logical, b).bypass
  {
  }

  // ------------------------------------------------------ prepared transitions

  ghost predicate HasDialable(c: Coordinator, l: LogicalId) {
    exists k :: k in Dialable(c.candidates) && k.logical == l
  }

  ghost predicate KeepsDialable(c: Coordinator, d: Coordinator) {
    forall l :: HasDialable(c, l) ==> HasDialable(d, l)
  }

  /** Candidates that are published or in use, except a lease being released. */
  ghost predicate InUse(c: Coordinator, released: Option<Key>, k: Key) {
    k in c.candidates && (c.candidates[k].dialable || (c.candidates[k].leases > 0 && released != Some(k)))
  }

  /** What holds of every transition the coordinator prepares from `c`. */
  ghost predicate Good(c: Coordinator, p: Prepared, kind: Kind, released: Option<Key>)
    requires Wellformed(c)
  {
    match p case Prepared(base, d, operations) =>
    && base == c.revision
    && Inv(d) && SameSpecs(c.logical, d.logical)
    // the revision moves unless nothing does
    && (d == c || d.revision == c.revision + 1)
    // the generation moves by one exactly when the dialable list changes
    && d.snapshot.generation == c.snapshot.generation + (if d.snapshot.candidates == c.snapshot.candidates then 0 else 1)
    // leases are only ever dropped here, and no lease id becomes free
    && d.nextLeaseId == c.nextLeaseId
    && (forall id :: id in d.leases ==> id in c.leases && d.leases[id] == c.leases[id])
    && KeepsDialable(c, d)
    // the plan leads from the host access of `c` to that of `d`
    && IsPlan(HostOf(c), HostOf(d), MarkerFor(c, d), operations)
    && (forall k :: InUse(c, released, k) ==> k in d.candidates)
    // both validators accept it
    && RuntimeOk(operations, d.snapshot.generation, kind)
  }

  lemma GoodPlan(c: Coordinator, d: Coordinator, ops: seq<Op>, kind: Kind)
    requires Inv(c) && Wellformed(d) && SameSpecs(c.logical, d.logical)
    requires ops == Plan(d.logical, c.candidates, d.candidates, MarkerFor(c, d))
    requires d.snapshot.generation == c.snapshot.generation + (if d.snapshot.candidates == c.snapshot.candidates then 0 else 1)
    requires if kind.Monotonic()
             then c.candidates.Keys <= d.candidates.Keys && (c.candidates.Keys == d.candidates.Keys || MarkerFor(c, d).Publication?)
             else d.candidates.Keys <= c.candidates.Keys && MarkerFor(c, d).NoPublication?
    ensures IsPlan(HostOf(c), HostOf(d), MarkerFor(c, d), ops)
    ensures RuntimeOk(ops, d.snapshot.generation, kind)
  {
    SpecsFrame(c.logical, d.logical, c.candidates);
    TransitionIsPlan(HostOf(c), HostOf(d), MarkerFor(c, d));
    HostRoutes(c);
    HostRoutes(d);
    if kind.Monotonic() {
      AccessMonotone(d.logical, c.candidates.Keys, d.candidates.Keys);
    } else {
      AccessMonotone(d.logical, d.candidates.Keys, c.candidates.Keys);
    }
    PlanAccepted(HostOf(c), HostOf(d), MarkerFor(c, d), ops, d.snapshot.generation, kind);
  }

  /** One step forward that, for addition-only kinds, only gains candidates and
      publishes what it gains, and for the others only drops them silently. */
  ghost predicate Advances(c: Coordinator, d: Coordinator, kind: Kind, released: Option<Key>) {
    && SameSpecs(c.logical, d.logical)
    && d.revision == c.revision + 1 && d.nextLeaseId == c.nextLeaseId
    && d.snapshot.generation == c.snapshot.generation + (if d.snapshot.candidates == c.snapshot.candidates then 0 else 1)
    && (forall id :: id in d.leases ==> id in c.leases && d.leases[id] == c.leases[id])
    && KeepsDialable(c, d)
    && (forall k :: InUse(c, released, k) ==> k in d.candidates)
    && if kind.Monotonic()
       then c.candidates.Keys <= d.candidates.Keys && (c.candidates.Keys == d.candidates.Keys || MarkerFor(c, d).Publication?)
       else d.candidates.Keys <= c.candidates.Keys && MarkerFor(c, d).NoPublication?
  }

  lemma GoodTransition(c: Coordinator, d: Coordinator, ops: seq<Op>, kind: Kind, released: Option<Key>)
    requires Inv(c) && Inv(d) && Advances(c, d, kind, released)
    requires ops == Plan(d.logical, c.candidates, d.candidates, MarkerFor(c, d))
    ensures Good(c, Prepared(c.revision, d, ops), kind, released)
  {
    GoodPlan(c, d, ops, kind);
  }

  /** The part of `Advances` that does not depend on the revision. */
  ghost predicate Answers(c: Coordinator, o: Coordinator) {
    && SameSpecs(c.logical, o.logical) && o.leases == c.leases && o.nextLeaseId == c.nextLeaseId
    && o.snapshot.generation == c.snapshot.generation + (if o.snapshot.candidates == c.snapshot.candidates then 0 else 1)
    && KeepsDialable(c, o)
    && c.candidates.Keys <= o.candidates.Keys
    && (c.candidates.Keys == o.candidates.Keys || MarkerFor(c, o).Publication?)
  }

  lemma AnswersAdvance(c: Coordinator, o: Coordinator, d: Coordinator, kind: Kind)
    requires Answers(c, o) && c.revision < U64_MAX && d == o.(revision := c.revision + 1) && kind.Monotonic()
    ensures Advances(c, d, kind, None)
  {
    assert forall l :: HasDialable(o, l) ==> HasDialable(d, l);
  }

  lemma QuietInv(c: Coordinator, d: Coordinator)
    requires Inv(c) && SameSpecs(c.logical, d.logical)
    requires d == c.(logical := d.logical, revision := d.revision) && d.revision >= c.revision
    ensures Inv(d) && HostOf(d) == HostOf(c)
  {
    SpecsFrame(c.logical, d.logical, c.candidates);
    SpecsAuthority(c.logical, d.logical);
  }

  lemma EmptyPlan(h: Host, target: U64, kind: Kind)
    ensures IsPlan(h, h, NoPublication, []) && RuntimeOk([], target, kind)
  {
    assert FirstPublish([], None) && AllAround([], None);
  }

  /** Transitions that touch only schedules, or nothing. */
  lemma QuietGood(c: Coordinator, d: Coordinator, kind: Kind)
    requires Inv(c) && SameSpecs(c.logical, d.logical)
    requires d == c || (d == c.(logical := d.logical, revision := d.revision) && d.revision == c.revision + 1)
    ensures Good(c, Prepared(c.revision, d, []), kind, None)
  {
    QuietInv(c, d);
    EmptyPlan(HostOf(c), d.snapshot.generation, kind);
  }

  // ------------------------------------------------------------------- queries

  lemma BeginQueryKeeps(c: Coordinator, l: LogicalId)
    requires Inv(c) && BeginQuery(c, l).Ok?
    ensures var d := BeginQuery(c, l).value.0;
            Inv(d) && SameSpecs(c.logical, d.logical) && d.revision == c.revision + 1 &&
            HostOf(d) == HostOf(c) && d.leases == c.leases && d.nextLeaseId == c.nextLeaseId &&
            d.snapshot == c.snapshot && d.candidates == c.candidates
  {
    var d := BeginQuery(c, l).value.0;
    QuietInv(c, d);
  }

  // -------------------------------------------------------------------- leases

  lemma LeaseIdsAdd(leases: map<U64, Key>, id: U64, k: Key, x: Key)
    requires id !in leases
    ensures LeaseIds(leases[id := k], x) == LeaseIds(leases, x) + (if x == k then {id} else {})
  {
  }

  lemma LeaseIdsRemove(leases: map<U64, Key>, id: U64, x: Key)
    requires id in leases
    ensures LeaseIds(leases - {id}, x) == LeaseIds(leases, x) - (if x == leases[id] then {id} else {})
    ensures x == leases[id] ==> id in LeaseIds(leases, x)
  {
  }

  /** Published candidates are listed by endpoint, and by address within one. */
  lemma DialOrder(logical: Logicals, candidates: Candidates, i: nat, j: nat)
    requires KeysKnown(logical, candidates.Keys) && i < j < |DialList(logical, candidates)|
    ensures var a, b := DialList(logical, candidates)[i].key, DialList(logical, candidates)[j].key;
            a.logical < b.logical || (a.logical == b.logical && a.ip < b.ip)
  {
    var list := DialList(logical, candidates);
    assert DialRank(list[i]) < DialRank(list[j]);
  }

  lemma DialableFrame(logical: Logicals, a: Candidates, b: Candidates)
    requires KeysKnown(logical, a.Keys) && KeysKnown(logical, b.Keys)
    requires Dialable(a) == Dialable(b)
    ensures DialList(logical, a) == DialList(logical, b)
  {
    DialListEquality(logical, a, b);
  }

  lemma AcquireLeases(c: Coordinator, k: Key)
    requires Inv(c) && Acquire(c, k).Ok?
    ensures LeasesExact(Acquire(c, k).value.0)
  {
    var d := Acquire(c, k).value.0;
    var newId := c.nextLeaseId;
    assert d.leases == c.leases[newId := k];
    forall x | x in d.candidates ensures d.candidates[x].leases == |LeaseIds(d.leases, x)| {
      LeaseIdsAdd(c.leases, newId, k, x);
      assert newId !in LeaseIds(c.leases, x);
      assert x in c.candidates;
    }
    forall id | id in d.leases ensures 1 <= id < d.nextLeaseId && d.leases[id] in d.candidates {
      assert id == newId || id in c.leases;
    }
  }

  lemma AcquireInv(c: Coordinator, k: Key)
    requires Inv(c) && Acquire(c, k).Ok?
    ensures Inv(Acquire(c, k).value.0)
    ensures Dialable(Acquire(c, k).value.0.candidates) == Dialable(c.candidates)
    ensures Acquire(c, k).value.0.candidates.Keys == c.candidates.Keys
  {
    var d := Acquire(c, k).value.0;
    assert d.candidates.Keys == c.candidates.Keys;
    assert Dialable(d.candidates) == Dialable(c.candidates);
    DialableFrame(c.logical, c.candidates, d.candidates);
    AcquireLeases(c, k);
  }

  /** A new lease takes an unused identifier and is counted exactly once. */
  lemma AcquireKeeps(c: Coordinator, k: Key)
    requires Inv(c) && Acquire(c, k).Ok?
    ensures var d, lease := Acquire(c, k).value.0, Acquire(c, k).value.1;
            Inv(d) && d.logical == c.logical && d.revision == c.revision + 1 && HostOf(d) == HostOf(c) &&
            lease.id == c.nextLeaseId && lease.id !in c.leases && d.nextLeaseId == c.nextLeaseId + 1 &&
            d.leases == c.leases[lease.id := k] && d.snapshot == c.snapshot && KeepsDialable(c, d)
  {
    AcquireInv(c, k);
  }

  /** Acquiring fails exactly in these cases; an identifier is never handed out twice. */
  lemma AcquireOutcome(c: Coordinator, k: Key)
    requires Inv(c)
    ensures Acquire(c, k).Ok? <==>
            c.revision < U64_MAX && c.nextLeaseId < U64_MAX && k in Dialable(c.candidates) &&
            |LeaseIds(c.leases, k)| < U32_MAX
    ensures Acquire(c, k) != Err(DuplicateLeaseId)
  {
  }

  /** A query is begun for every known endpoint until a counter ends; only its own counter
      and the revision move, and the stamp is the new count. */
  lemma QueryExact(c: Coordinator, l: LogicalId)
    ensures BeginQuery(c, l).Ok? <==> l in c.logical && c.revision < U64_MAX && c.logical[l].latestQuery < U64_MAX
    ensures BeginQuery(c, l).Ok? ==>
              var (d, stamp) := BeginQuery(c, l).value;
              && l in d.logical && d == c.(revision := c.revision + 1, logical := d.logical) && stamp == QueryStamp(l, d.logical[l].latestQuery)
              && d.logical.Keys == c.logical.Keys && (forall m :: m in c.logical && m != l ==> d.logical[m] == c.logical[m])
              && d.logical[l] == c.logical[l].(latestQuery := c.logical[l].latestQuery + 1)
  {
  }

  /** A lease has the next identifier, is entered under it, and is counted at its candidate;
      nothing else changes. */
  lemma AcquireExact(c: Coordinator, k: Key)
    requires Acquire(c, k).Ok?
    ensures var (d, lease) := Acquire(c, k).value;
            && d == c.(revision := c.revision + 1, nextLeaseId := c.nextLeaseId + 1, leases := d.leases, candidates := d.candidates)
            && lease == Lease(c.nextLeaseId, k) && d.leases == c.leases[lease.id := k]
            && d.candidates.Keys == c.candidates.Keys && (forall x :: x in c.candidates && x != k ==> d.candidates[x] == c.candidates[x])
            && k in c.candidates && d.candidates[k] == c.candidates[k].(leases := d.candidates[k].leases)
            && d.candidates[k].leases == c.candidates[k].leases + 1
  {
  }

  /** Releasing a known lease never trips the counter or ownership checks. */
  lemma ReleaseOutcome(c: Coordinator, lease: Lease)
    requires Inv(c)
    ensures PrepareRelease(c, lease).Ok? <==>
            lease.id in c.leases && c.leases[lease.id] == lease.key && c.revision < U64_MAX
    ensures PrepareRelease(c, lease) != Err(LeasedCandidateGone) && PrepareRelease(c, lease) != Err(LeaseUnderflow)
  {
    if lease.id in c.leases && c.leases[lease.id] == lease.key {
      assert lease.id in LeaseIds(c.leases, lease.key);
    }
  }

  lemma ReleaseDialable(c: Coordinator, lease: Lease)
    requires Inv(c) && PrepareRelease(c, lease).Ok?
    ensures Dialable(PrepareRelease(c, lease).value.projected.candidates) == Dialable(c.candidates)
  {
  }

  /** A candidate goes with the released lease exactly when it is the leased one, is
      depublished, and that was its last lease. */
  lemma ReleaseKeeps(c: Coordinator, lease: Lease, k: Key)
    requires Inv(c) && PrepareRelease(c, lease).Ok?
    ensures var d := PrepareRelease(c, lease).value.projected;
            && (k in d.candidates <==> k in c.candidates && (k != lease.key || k in Dialable(c.candidates) || LeaseIds(d.leases, k) != {}))
            && (k in d.candidates ==>
                  d.candidates[k] == c.candidates[k].(leases := d.candidates[k].leases) && d.candidates[k].leases == |LeaseIds(d.leases, k)|)
            && (k in Retirable(d.candidates) <==> k in Retirable(c.candidates))
  {
    var d := PrepareRelease(c, lease).value.projected;
    LeaseIdsRemove(c.leases, lease.id, k);
    var before, after := LeaseIds(c.leases, k), LeaseIds(d.leases, k);
    assert after == before - (if k == lease.key then {lease.id} else {});
    if k == lease.key {
      assert lease.id in before && |after| == |before| - 1;
      assert k in c.candidates && c.candidates[k].leases == |before|;
    }
  }

  lemma ReleaseLeases(c: Coordinator, lease: Lease)
    requires Inv(c) && PrepareRelease(c, lease).Ok?
    ensures LeasesExact(PrepareRelease(c, lease).value.projected)
  {
    var d := PrepareRelease(c, lease).value.projected;
    forall x | x in d.candidates ensures d.candidates[x].leases == |LeaseIds(d.leases, x)| {
      ReleaseKeeps(c, lease, x);
    }
    forall id | id in d.leases ensures d.leases[id] in d.candidates {
      ReleaseKeeps(c, lease, d.leases[id]);
      assert id in c.leases && id in LeaseIds(d.leases, d.leases[id]);
    }
  }

  /** Exactly the released lease goes, and nothing new is left to retire. */
  lemma ReleaseExact(c: Coordinator, lease: Lease)
    requires Inv(c) && PrepareRelease(c, lease).Ok?
    ensures var d := PrepareRelease(c, lease).value.projected;
            && d == c.(revision := c.revision + 1, leases := c.leases - {lease.id}, candidates := d.candidates)
            && (forall k :: k in d.candidates <==>
                  k in c.candidates && (k != lease.key || k in Dialable(c.candidates) || LeaseIds(d.leases, k) != {}))
            && Retirable(d.candidates) == Retirable(c.candidates)
  {
    var d := PrepareRelease(c, lease).value.projected;
    forall k
      ensures k in d.candidates <==> k in c.candidates && (k != lease.key || k in Dialable(c.candidates) || LeaseIds(d.leases, k) != {})
      ensures k in Retirable(d.candidates) <==> k in Retirable(c.candidates)
    {
      ReleaseKeeps(c, lease, k);
    }
  }

  lemma ReleaseInv(c: Coordinator, lease: Lease)
    requires Inv(c) && PrepareRelease(c, lease).Ok?
    ensures Inv(PrepareRelease(c, lease).value.projected)
  {
    ReleaseLeases(c, lease);
    ReleaseDialable(c, lease);
    DialableFrame(c.logical, c.candidates, PrepareRelease(c, lease).value.projected.candidates);
  }

  lemma ReleaseGood(c: Coordinator, lease: Lease)
    requires Inv(c) && PrepareRelease(c, lease).Ok?
    ensures Good(c, PrepareRelease(c, lease).value, LeaseRelease, Some(lease.key))
    ensures lease.id !in PrepareRelease(c, lease).value.projected.leases
  {
    var p := PrepareRelease(c, lease).value;
    ReleaseInv(c, lease);
    ReleaseDialable(c, lease);
    GoodTransition(c, p.projected, p.operations, LeaseRelease, Some(lease.key));
  }

  // ---------------------------------------------------------------- retirement

  lemma RetirementInv(c: Coordinator)
    requires Inv(c) && PrepareRetirement(c).Ok? && PrepareRetirement(c).value.Some?
    ensures Inv(PrepareRetirement(c).value.value.projected)
    ensures Dialable(PrepareRetirement(c).value.value.projected.candidates) == Dialable(c.candidates)
  {
    var d := PrepareRetirement(c).value.value.projected;
    assert Dialable(d.candidates) == Dialable(c.candidates);
    DialableFrame(c.logical, c.candidates, d.candidates);
    forall id | id in d.leases ensures d.leases[id] in d.candidates {
      assert id in LeaseIds(c.leases, c.leases[id]);
    }
  }

  lemma RetirementGood(c: Coordinator)
    requires Inv(c) && PrepareRetirement(c).Ok? && PrepareRetirement(c).value.Some?
    ensures Good(c, PrepareRetirement(c).value.value, Retirement, None)
    ensures PrepareRetirement(c).value.value.projected.leases == c.leases
  {
    var p := PrepareRetirement(c).value.value;
    RetirementInv(c);
    GoodTransition(c, p.projected, p.operations, Retirement, None);
  }

  /** A committed retirement leaves nothing to retire. */
  lemma RetirementExhausts(c: Coordinator)
    requires Inv(c) && PrepareRetirement(c).Ok? && PrepareRetirement(c).value.Some?
    ensures PrepareRetirement(PrepareRetirement(c).value.value.projected) == Ok(None)
  {
    RetirementGood(c);
  }

  // --------------------------------------------------------------- rehydration

  lemma RehydratedDialable(c: Coordinator)
    requires Inv(c)
    ensures var r := Rehydrated(c.logical, c.candidates);
            Dialable(r) == AuthorityKeys(c.logical) && r.Keys == c.candidates.Keys + AuthorityKeys(c.logical) &&
            KeysKnown(c.logical, r.Keys) && forall k :: k in r ==> Authorized(c.logical, k)
  {
    var r := Rehydrated(c.logical, c.candidates);
    forall k ensures k in AuthorityKeys(c.logical) <==> k in Dialable(r) {
      AuthorityKeysMember(c.logical, k);
    }
    assert Dialable(r) == AuthorityKeys(c.logical);
  }

  /** What rehydration does to one candidate: a signed one becomes dialable, without an
      expiry unless it was dialable; no other one changes, and no lease count does. */
  lemma RehydratedCandidate(logical: Logicals, candidates: Candidates, k: Key)
    ensures var r := Rehydrated(logical, candidates);
            && (k in r <==> k in candidates || k in AuthorityKeys(logical))
            && (k in candidates && (k in Dialable(candidates) || k !in AuthorityKeys(logical)) ==> r[k] == candidates[k])
            && (k in AuthorityKeys(logical) && k !in Dialable(candidates) ==>
                  r[k].dialable && r[k].validUntil == None && r[k].leases == if k in candidates then candidates[k].leases else 0)
  {
  }

  lemma TransitionAdds(h: Host, g: Host, publish: Marker)
    requires h.allowed <= g.allowed && h.bypass <= g.bypass
    ensures forall op :: op in Transition(h, g, publish) ==> !IsRemoval(op)
  {
    TransitionIsPlan(h, g, publish);
  }

  lemma RehydrationPlanAdds(c: Coordinator)
    requires Inv(c) && c.snapshot.generation < U64_MAX
    ensures forall op :: op in RehydrationPlan(c) ==> !IsRemoval(op)
  {
    var r := Rehydrated(c.logical, c.candidates);
    AccessMonotone(c.logical, c.candidates.Keys, r.Keys) by { RehydratedDialable(c); }
    TransitionAdds(Access(c.logical, c.candidates.Keys), Access(c.logical, r.Keys),
                   Publication(c.snapshot.generation, c.snapshot.generation + 1));
  }

  lemma RehydrationChanges(c: Coordinator)
    requires Inv(c) && Revived(c.logical, c.candidates) != {}
    ensures DialList(c.logical, Rehydrated(c.logical, c.candidates)) != c.snapshot.candidates
  {
    var r := Rehydrated(c.logical, c.candidates);
    RehydratedDialable(c);
    assert Dialable(r) != Dialable(c.candidates);
    DialListEquality(c.logical, r, c.candidates);
  }

  /** Rehydration can fail only when the revision counter is used up: its own
      internal checks never trip. */
  lemma RehydrationOutcome(c: Coordinator)
    requires Inv(c)
    ensures PrepareRehydration(c).Err? <==> (Revived(c.logical, c.candidates) != {} && c.revision == U64_MAX)
    ensures PrepareRehydration(c).Err? ==> PrepareRehydration(c).error in {RevisionExhausted, GenerationExhausted}
    ensures PrepareRehydration(c).Ok? ==>
            PrepareRehydration(c).value ==
            if Revived(c.logical, c.candidates) == {} then Prepared(c.revision, c, [])
            else Prepared(c.revision, RehydratedState(c), RehydrationPlan(c))
  {
    if Revived(c.logical, c.candidates) != {} {
      RehydrationChanges(c);
      if c.snapshot.generation < U64_MAX {
        RehydrationPlanAdds(c);
      }
    }
  }

  lemma RehydratedLeases(c: Coordinator)
    requires Inv(c)
    ensures forall k :: k in Rehydrated(c.logical, c.candidates) ==>
              Rehydrated(c.logical, c.candidates)[k].leases == |LeaseIds(c.leases, k)|
  {
    var r := Rehydrated(c.logical, c.candidates);
    forall k | k in r ensures r[k].leases == |LeaseIds(c.leases, k)| {
      if k !in c.candidates {
        assert LeaseIds(c.leases, k) == {};
      }
    }
  }

  lemma RehydratedInv(c: Coordinator)
    requires Inv(c) && c.revision < U64_MAX
    ensures Inv(RehydratedState(c))
  {
    RehydratedDialable(c);
    RehydratedLeases(c);
    var k :| k in Dialable(c.candidates);
    AuthorityKeysMember(c.logical, k);
  }

  lemma RehydratedKeepsDialable(c: Coordinator)
    requires Inv(c) && c.revision < U64_MAX
    ensures KeepsDialable(c, RehydratedState(c))
  {
    RehydratedDialable(c);
    forall l | HasDialable(c, l) ensures HasDialable(RehydratedState(c), l) {
      var k :| k in Dialable(c.candidates) && k.logical == l;
      AuthorityKeysMember(c.logical, k);
    }
  }

  lemma RehydratedAnswers(c: Coordinator)
    requires Inv(c) && c.revision < U64_MAX && Revived(c.logical, c.candidates) != {}
    ensures Answers(c, RehydratedState(c))
    ensures RehydrationPlan(c) ==
            Plan(c.logical, c.candidates, RehydratedState(c).candidates, MarkerFor(c, RehydratedState(c)))
  {
    RehydrationChanges(c);
    RehydratedKeepsDialable(c);
  }

  lemma RehydratedGood(c: Coordinator)
    requires Inv(c) && c.revision < U64_MAX && Revived(c.logical, c.candidates) != {}
    ensures Good(c, Prepared(c.revision, RehydratedState(c), RehydrationPlan(c)), AuthorityRehydration, None)
  {
    var d := RehydratedState(c);
    RehydratedInv(c);
    RehydratedAnswers(c);
    AnswersAdvance(c, d, d, AuthorityRehydration);
    GoodTransition(c, d, RehydrationPlan(c), AuthorityRehydration, None);
  }

  lemma RehydrationGood(c: Coordinator)
    requires Inv(c) && PrepareRehydration(c).Ok?
    ensures Good(c, PrepareRehydration(c).value, AuthorityRehydration, None)
  {
    RehydrationOutcome(c);
    if Revived(c.logical, c.candidates) == {} {
      QuietGood(c, c, AuthorityRehydration);
    } else {
      RehydratedGood(c);
    }
  }

  lemma RehydrationPublishesAll(c: Coordinator)
    requires Inv(c) && PrepareRehydration(c).Ok?
    ensures var d := PrepareRehydration(c).value.projected;
            Dialable(d.candidates) == AuthorityKeys(d.logical) && d.logical == c.logical && d.leases == c.leases
  {
    RehydrationOutcome(c);
    RehydratedDialable(c);
    forall k | k in Dialable(c.candidates) ensures k in AuthorityKeys(c.logical) {
      AuthorityKeysMember(c.logical, k);
    }
  }

  /** A committed rehydration publishes exactly the whole signed authority, keeps
      every lease, only adds host access, and repeated it changes nothing. */
  lemma RehydrationComplete(c: Coordinator)
    requires Inv(c) && PrepareRehydration(c).Ok?
    ensures var p := PrepareRehydration(c).value;
            Dialable(p.projected.candidates) == AuthorityKeys(c.logical) &&
            p.projected.leases == c.leases &&
            (forall op :: op in p.operations ==> !IsRemoval(op)) &&
            Wellformed(p.projected) &&
            PrepareRehydration(p.projected) == Ok(Prepared(p.projected.revision, p.projected, []))
  {
    var p := PrepareRehydration(c).value;
    RehydrationOutcome(c);
    RehydrationPublishesAll(c);
    RehydrationGood(c);
    assert Revived(p.projected.logical, p.projected.candidates) == {};
    if Revived(c.logical, c.candidates) != {} {
      RehydrationPlanAdds(c);
    }
  }

  // --------------------------------------------------------------- observations

  /** Schedule-only outcomes leave everything but one schedule alone. */
  ghost predicate Quiet(c: Coordinator, o: ObservationOutcome) {
    SameSpecs(c.logical, o.state.logical) &&
    o.state == c.(logical := o.state.logical) && o.operations == []
  }

  lemma ObservedLeases(c: Coordinator, l: LogicalId, ttls: map<Ipv4, U32>, now: U64)
    requires Inv(c)
    ensures var r := Observed(c.candidates, l, ttls, now);
            c.candidates.Keys <= r.Keys && forall k :: k in r ==> r[k].leases == |LeaseIds(c.leases, k)|
  {
    var r := Observed(c.candidates, l, ttls, now);
    forall k | k in r ensures r[k].leases == |LeaseIds(c.leases, k)| {
      if k !in c.candidates {
        assert LeaseIds(c.leases, k) == {};
      }
    }
  }

  /** After an applied positive answer exactly the answered addresses of `l` are
      dialable, and every other endpoint is as before. */
  lemma ObservedDialable(candidates: Candidates, l: LogicalId, ttls: map<Ipv4, U32>, now: U64, k: Key)
    ensures k in Dialable(Observed(candidates, l, ttls, now)) <==>
            if k.logical == l then k.ip in ttls else k in Dialable(candidates)
  {
    assert k == Key(k.logical, k.ip);
  }

  ghost predicate Answerable(c: Coordinator, l: LogicalId, ttls: map<Ipv4, U32>) {
    l in c.logical && ttls != map[] && forall ip :: ip in ttls ==> Authorized(c.logical, Key(l, ip))
  }

  lemma ObservedNonempty(c: Coordinator, l: LogicalId, ttls: map<Ipv4, U32>, now: U64)
    requires Answerable(c, l, ttls)
    ensures var r := Observed(c.candidates, l, ttls, now);
            Dialable(r) != {} && forall m :: HasDialable(c, m) ==> exists k :: k in Dialable(r) && k.logical == m
  {
    var r := Observed(c.candidates, l, ttls, now);
    var ip :| ip in ttls;
    ObservedDialable(c.candidates, l, ttls, now, Key(l, ip));
    assert Key(l, ip) in Dialable(r);
    forall m | HasDialable(c, m) ensures exists k :: k in Dialable(r) && k.logical == m {
      var k :| k in Dialable(c.candidates) && k.logical == m;
      ObservedDialable(c.candidates, l, ttls, now, k);
      assert m == l ==> Key(l, ip) in Dialable(r);
    }
  }

  lemma ObservedStateInv(c: Coordinator, l: LogicalId, ttls: map<Ipv4, U32>, now: U64, next: U64, revision: U64)
    requires Inv(c) && Answerable(c, l, ttls)
    requires c.snapshot.generation < U64_MAX && revision > c.revision
    ensures Inv(ObservedState(c, l, ttls, now, next).(revision := revision))
  {
    var d := ObservedState(c, l, ttls, now, next).(revision := revision);
    assert SameSpecs(c.logical, d.logical);
    SpecsAuthority(c.logical, d.logical);
    ObservedLeases(c, l, ttls, now);
    ObservedNonempty(c, l, ttls, now);
  }

  /** A new candidate always shows in the dial list. */
  lemma ObservedPublishesNew(c: Coordinator, l: LogicalId, ttls: map<Ipv4, U32>, now: U64, logical: Logicals, candidates: Candidates)
    requires Inv(c) && SameSpecs(c.logical, logical) && l in c.logical && candidates == Observed(c.candidates, l, ttls, now)
    ensures c.candidates.Keys <= candidates.Keys && KeysKnown(logical, candidates.Keys)
    ensures c.candidates.Keys == candidates.Keys || DialList(logical, candidates) != c.snapshot.candidates
  {
    if c.candidates.Keys != candidates.Keys {
      var k :| k in candidates.Keys && k !in c.candidates.Keys;
      assert k in Dialable(candidates) && k !in Dialable(c.candidates);
      DialListsDiffer(c.logical, logical, c.candidates, candidates);
    }
  }

  lemma ObservedPublishes(c: Coordinator, l: LogicalId, ttls: map<Ipv4, U32>, now: U64, next: U64)
    requires Inv(c) && Answerable(c, l, ttls)
    ensures var d := ObservedState(c, l, ttls, now, next);
            c.candidates.Keys <= d.candidates.Keys &&
            (c.candidates.Keys == d.candidates.Keys || MarkerFor(c, d).Publication?)
  {
    var d := ObservedState(c, l, ttls, now, next);
    ObservedPublishesNew(c, l, ttls, now, d.logical, d.candidates);
  }

  lemma DialListsDiffer(a: Logicals, b: Logicals, x: Candidates, y: Candidates)
    requires SameSpecs(a, b) && KeysKnown(a, x.Keys) && KeysKnown(b, y.Keys)
    requires Dialable(x) != Dialable(y)
    ensures DialList(a, x) != DialList(b, y)
  {
    SpecsFrame(b, a, y);
    DialListEquality(a, x, y);
  }

  lemma ObservedFrame(c: Coordinator, l: LogicalId, ttls: map<Ipv4, U32>, now: U64, next: U64)
    requires Wellformed(c) && l in c.logical && c.snapshot.generation < U64_MAX
    ensures var d := ObservedState(c, l, ttls, now, next);
            SameSpecs(c.logical, d.logical) && d.leases == c.leases && d.nextLeaseId == c.nextLeaseId &&
            d.snapshot.generation == c.snapshot.generation + (if d.snapshot.candidates == c.snapshot.candidates then 0 else 1) &&
            d.candidates == Observed(c.candidates, l, ttls, now)
  {
  }

  lemma ObservedKeepsDialable(c: Coordinator, l: LogicalId, ttls: map<Ipv4, U32>, now: U64, next: U64)
    requires Wellformed(c) && Answerable(c, l, ttls)
    ensures KeepsDialable(c, ObservedState(c, l, ttls, now, next))
  {
    ObservedNonempty(c, l, ttls, now);
    assert ObservedState(c, l, ttls, now, next).candidates == Observed(c.candidates, l, ttls, now);
  }

  lemma ObservedAnswers(c: Coordinator, l: LogicalId, ttls: map<Ipv4, U32>, now: U64, next: U64, o: Coordinator)
    requires Inv(c) && Answerable(c, l, ttls) && c.snapshot.generation < U64_MAX
    requires o == ObservedState(c, l, ttls, now, next)
    ensures Answers(c, o)
  {
    ObservedFrame(c, l, ttls, now, next);
    ObservedPublishes(c, l, ttls, now, next);
    ObservedKeepsDialable(c, l, ttls, now, next);
  }

  lemma ObservedGood(c: Coordinator, l: LogicalId, ttls: map<Ipv4, U32>, now: U64, next: U64, o: Coordinator, d: Coordinator, ops: seq<Op>)
    requires Inv(c) && Answerable(c, l, ttls) && c.revision < U64_MAX
    requires o == ObservedState(c, l, ttls, now, next) && d == o.(revision := c.revision + 1)
    requires ops == Plan(d.logical, c.candidates, d.candidates, MarkerFor(c, d))
    ensures Good(c, Prepared(c.revision, d, ops), ObservationStage, None)
  {
    ObservedStateInv(c, l, ttls, now, next, c.revision + 1);
    ObservedAnswers(c, l, ttls, now, next, o);
    AnswersAdvance(c, o, d, ObservationStage);
    GoodTransition(c, d, ops, ObservationStage, None);
  }

  // ---- the observation entry point

  /** A positive answer is applied exactly when it is signed and permitted. */
  lemma AnswerableIff(c: Coordinator, l: LogicalId, ttls: map<Ipv4, U32>)
    requires l in c.logical && ttls != map[]
    ensures var spec := c.logical[l].spec;
            Answerable(c, l, ttls) <==>
            (set ip | ip in ttls && ip !in spec.authority.allowed) == {} &&
            (set ip | ip in ttls && !spec.addressPolicy.Permits(ip)) == {}
  {
    var spec := c.logical[l].spec;
    var outside := set ip | ip in ttls && ip !in spec.authority.allowed;
    var rejected := set ip | ip in ttls && !spec.addressPolicy.Permits(ip);
    assert forall ip :: ip in ttls ==> (Authorized(c.logical, Key(l, ip)) <==> ip !in outside && ip !in rejected);
  }

  lemma PositiveApplied(c: Coordinator, l: LogicalId, records: seq<AddressRecord>, now: U64, entropy: U64)
    requires Wellformed(c) && l in c.logical && records != [] && Answerable(c, l, Dedup(records))
    ensures var o := ApplyPositive(c, l, records, now, entropy);
            o.state == ObservedState(c, l, Dedup(records), now, o.nextRefresh) && o.disposition == Applied &&
            o.operations == Plan(o.state.logical, c.candidates, o.state.candidates, MarkerFor(c, o.state))
  {
    AnswerableIff(c, l, Dedup(records));
    ObservedNonempty(c, l, Dedup(records), now);
  }

  lemma PositiveRejected(c: Coordinator, l: LogicalId, records: seq<AddressRecord>, now: U64, entropy: U64)
    requires Wellformed(c) && l in c.logical && records != [] && !Answerable(c, l, Dedup(records))
    ensures var o := ApplyPositive(c, l, records, now, entropy);
            Quiet(c, o) && (o.disposition.RejectedOutsideAuthority? || o.disposition.RejectedAddressPolicy?)
  {
    DedupLowest(records, records[0].ip);
    assert records[0].ip in Dedup(records);
    AnswerableIff(c, l, Dedup(records));
  }

  lemma PositiveGood(c: Coordinator, l: LogicalId, records: seq<AddressRecord>, now: U64, entropy: U64, o: ObservationOutcome)
    requires Inv(c) && l in c.logical && records != [] && c.revision < U64_MAX
    requires o == ApplyPositive(c, l, records, now, entropy)
    ensures Good(c, Prepared(c.revision, o.state.(revision := c.revision + 1), o.operations), ObservationStage, None)
  {
    var d := o.state.(revision := c.revision + 1);
    if Answerable(c, l, Dedup(records)) {
      PositiveApplied(c, l, records, now, entropy);
      ObservedGood(c, l, Dedup(records), now, o.nextRefresh, o.state, d, o.operations);
    } else {
      PositiveRejected(c, l, records, now, entropy);
      QuietGood(c, d, ObservationStage);
    }
  }

  /** A schedule-only change before a transition does not weaken it. */
  lemma PlanFrame(h: Host, k: Host, g: Host, m: Marker, n: Marker, ops: seq<Op>)
    requires IsPlan(h, g, m, ops) && h == k && m == n
    ensures IsPlan(k, g, n, ops)
  {
  }

  lemma GoodFrame(c: Coordinator, e: Coordinator, p: Prepared, kind: Kind)
    requires Inv(c) && Inv(e) && SameSpecs(c.logical, e.logical) && e == c.(logical := e.logical)
    requires Good(e, p, kind, None) && p.projected.revision == c.revision + 1
    ensures Good(c, p, kind, None)
  {
    SpecsFrame(c.logical, e.logical, c.candidates);
    assert forall l :: HasDialable(c, l) ==> HasDialable(e, l);
    assert forall k :: InUse(c, None, k) ==> InUse(e, None, k);
    PlanFrame(HostOf(e), HostOf(c), HostOf(p.projected), MarkerFor(e, p.projected), MarkerFor(c, p.projected), p.operations);
  }

  function Stamped(c: Coordinator, stamp: QueryStamp): Coordinator
    requires stamp.logical in c.logical
  {
    c.(logical := c.logical[stamp.logical := c.logical[stamp.logical].(lastApplied := stamp.sequence)])
  }

  predicate Current(c: Coordinator, stamp: QueryStamp) {
    stamp.logical in c.logical && stamp.sequence == c.logical[stamp.logical].latestQuery > c.logical[stamp.logical].lastApplied
  }

  lemma StampedInv(c: Coordinator, stamp: QueryStamp)
    requires Inv(c) && stamp.logical in c.logical
    ensures Inv(Stamped(c, stamp)) && SameSpecs(c.logical, Stamped(c, stamp).logical)
  {
    QuietInv(c, Stamped(c, stamp));
  }

  /** Whatever the answer, an outcome is either the positive one or touches only a schedule. */
  lemma ObservationShape(c: Coordinator, stamp: QueryStamp, obs: Observation, now: U64, entropy: U64)
    requires Inv(c) && stamp.logical in c.logical
    ensures Wellformed(Stamped(c, stamp))
    ensures ApplyObservation(c, stamp, obs, now, entropy).Ok?
    ensures var o := ApplyObservation(c, stamp, obs, now, entropy).value;
            if Current(c, stamp) && obs.Positive? && obs.records != []
            then o == ApplyPositive(Stamped(c, stamp), stamp.logical, obs.records, now, entropy)
            else Quiet(c, o)
  {
  }

  lemma StampedPositiveGood(c: Coordinator, e: Coordinator, l: LogicalId, records: seq<AddressRecord>, now: U64, entropy: U64, o: ObservationOutcome, p: Prepared)
    requires Inv(c) && Inv(e) && SameSpecs(c.logical, e.logical) && e == c.(logical := e.logical)
    requires l in e.logical && c.revision < U64_MAX && records != []
    requires o == ApplyPositive(e, l, records, now, entropy)
    requires p == Prepared(e.revision, o.state.(revision := e.revision + 1), o.operations)
    ensures Good(c, p, ObservationStage, None)
  {
    PositiveGood(e, l, records, now, entropy, o);
    GoodFrame(c, e, p, ObservationStage);
  }

  lemma ObservationGood(c: Coordinator, stamp: QueryStamp, obs: Observation, now: U64, entropy: U64, p: Prepared)
    requires Inv(c) && PrepareObservation(c, stamp, obs, now, entropy) == Ok(p)
    ensures Good(c, p, ObservationStage, None)
  {
    ObservationShape(c, stamp, obs, now, entropy);
    var o := ApplyObservation(c, stamp, obs, now, entropy).value;
    if Current(c, stamp) && obs.Positive? && obs.records != [] {
      StampedInv(c, stamp);
      StampedPositiveGood(c, Stamped(c, stamp), stamp.logical, obs.records, now, entropy, o, p);
    } else {
      QuietGood(c, p.projected, ObservationStage);
    }
  }
}
