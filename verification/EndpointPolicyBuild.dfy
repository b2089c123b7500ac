/** Construction of a policy from a signed plan: grouping, compact identifiers
    with collision rejection, registry, endpoints and seeds. */
module EndpointPolicyBuild {
  import opened Prelude
  import opened Names
  import opened EndpointPlan
  import opened Endpoint
  import opened EndpointCoordination
  import opened EndpointPolicy

  // --------------------------------------------------------------------- grouping

  lemma AddressesNext(es: seq<SignedEndpoint>, i: nat, g: Group)
    requires i < |es|
    ensures Addresses(es[..i + 1], g) == Addresses(es[..i], g) + (if GroupOf(es[i]) == g then {es[i].ip} else {})
  {
    var a, b := es[..i], es[..i + 1];
    forall ip ensures ip in Addresses(b, g) <==> ip in Addresses(a, g) || (GroupOf(es[i]) == g && ip == es[i].ip) {
      if ip in Addresses(b, g) {
        var k :| 0 <= k < |b| && GroupOf(b[k]) == g && b[k].ip == ip;
        assert k < i ==> a[k] == b[k];
      }
      if ip in Addresses(a, g) {
        var k :| 0 <= k < |a| && GroupOf(a[k]) == g && a[k].ip == ip;
        assert a[k] == b[k];
      }
      assert b[i] == es[i];
    }
  }

  lemma GroupsNext(es: seq<SignedEndpoint>, i: nat)
    requires i < |es|
    ensures Groups(es[..i + 1]) == Groups(es[..i]) + {GroupOf(es[i])}
  {
    var a, b := es[..i], es[..i + 1];
    forall g ensures g in Groups(b) <==> g in Groups(a) || g == GroupOf(es[i]) {
      if g in Groups(b) {
        var k :| 0 <= k < |b| && GroupOf(b[k]) == g;
        assert k < i ==> a[k] == b[k];
      }
      if g in Groups(a) {
        var k :| 0 <= k < |a| && GroupOf(a[k]) == g;
        assert a[k] == b[k];
      }
      assert b[i] == es[i];
    }
  }

  /** What the loop over signed endpoints has collected after `i` of them. */
  ghost predicate Grouped(es: seq<SignedEndpoint>, i: nat, seen: set<Bytes>, groups: map<Group, set<Ipv4>>)
    requires i <= |es|
  {
    && Groupable(es[..i])
    && (forall id :: id in seen <==> exists k :: 0 <= k < i && es[k].endpointId == id)
    && groups.Keys == Groups(es[..i])
    && (forall g :: g in groups ==> groups[g] == Addresses(es[..i], g))
  }

  /** The next endpoint can be added exactly when nothing it brings is taken. */
  lemma GroupableNext(es: seq<SignedEndpoint>, i: nat, seen: set<Bytes>, groups: map<Group, set<Ipv4>>)
    requires i < |es| && Grouped(es, i, seen, groups)
    ensures Groupable(es[..i + 1]) <==>
            es[i].endpointId !in seen && ValidGroup(GroupOf(es[i])) &&
            (GroupOf(es[i]) in groups ==> es[i].ip !in groups[GroupOf(es[i])])
  {
    var a, b, g := es[..i], es[..i + 1], GroupOf(es[i]);
    assert forall k :: 0 <= k < i ==> a[k] == b[k] == es[k];
    assert b[i] == es[i];
    if g !in groups || es[i].ip !in groups[g] {
      forall k | 0 <= k < i ensures GroupOf(a[k]) != g || a[k].ip != es[i].ip {
        assert GroupOf(a[k]) in Groups(a) && a[k].ip in Addresses(a, GroupOf(a[k]));
      }
    }
  }

  lemma GroupablePrefix(es: seq<SignedEndpoint>, n: nat)
    requires n <= |es| && Groupable(es)
    ensures Groupable(es[..n])
  {
    var a := es[..n];
    assert forall k :: 0 <= k < n ==> a[k] == es[k];
  }

  function Inserted(groups: map<Group, set<Ipv4>>, g: Group, ip: Ipv4): map<Group, set<Ipv4>> {
    groups[g := (if g in groups then groups[g] else {}) + {ip}]
  }

  lemma GroupedNext(es: seq<SignedEndpoint>, i: nat, seen: set<Bytes>, groups: map<Group, set<Ipv4>>)
    requires i < |es| && Grouped(es, i, seen, groups) && Groupable(es[..i + 1])
    ensures Grouped(es, i + 1, seen + {es[i].endpointId}, Inserted(groups, GroupOf(es[i]), es[i].ip))
  {
    var g, next := GroupOf(es[i]), Inserted(groups, GroupOf(es[i]), es[i].ip);
    GroupsNext(es, i);
    forall x | x in next ensures next[x] == Addresses(es[..i + 1], x) {
      AddressesNext(es, i, x);
      if x !in groups {
        NoAddresses(es[..i], x);
      }
    }
  }

  lemma NoAddresses(es: seq<SignedEndpoint>, g: Group)
    requires g !in Groups(es)
    ensures Addresses(es, g) == {}
  {
    forall k | 0 <= k < |es| ensures GroupOf(es[k]) != g {
      assert GroupOf(es[k]) in Groups(es);
    }
  }

  method GroupEndpoints(es: seq<SignedEndpoint>) returns (r: Result<map<Group, set<Ipv4>>, PolicyError>)
    ensures r.Ok? <==> Groupable(es)
    ensures r.Ok? ==> r.value.Keys == Groups(es) && forall g :: g in r.value ==> r.value[g] == Addresses(es, g)
  {
    var seen: set<Bytes> := {};
    var groups: map<Group, set<Ipv4>> := map[];
    assert es[..0] == [];
    for i := 0 to |es|
      invariant Grouped(es, i, seen, groups)
    {
      GroupableNext(es, i, seen, groups);
      if Groupable(es) { GroupablePrefix(es, i + 1); }
      if es[i].endpointId in seen { return Err(DuplicateEndpoint); }
      var g := GroupOf(es[i]);
      if !ValidGroup(g) { return Err(BadEndpoint); }
      if g in groups && es[i].ip in groups[g] { return Err(DuplicateMapping); }
      GroupedNext(es, i, seen, groups);
      seen := seen + {es[i].endpointId};
      groups := Inserted(groups, g, es[i].ip);
    }
    assert es[..|es|] == es;
    return Ok(groups);
  }

  // --------------------------------------------------------------------- registry

  method SeedList(l: LogicalId, addresses: set<Ipv4>) returns (r: seq<SeedCandidate>)
    ensures forall seed :: seed in r <==> seed.logical == l && seed.ip in addresses
  {
    r := [];
    var rest := addresses;
    while rest != {}
      invariant rest <= addresses
      invariant forall seed :: seed in r <==> seed.logical == l && seed.ip in addresses - rest
    {
      var ip :| ip in rest;
      r := r + [SeedCandidate(l, ip)];
      rest := rest - {ip};
    }
  }

  lemma ListsNext(order: seq<Group>, groups: set<Group>, g: Group)
    requires Lists(order, groups) && g !in groups
    ensures Lists(order + [g], groups + {g})
  {
    var next := order + [g];
    forall i, j | 0 <= i < j < |next| ensures next[i] != next[j] {
      assert next[i] == order[i] && order[i] in order;
    }
  }

  lemma EndpointsNext(h: Hashes, plan: SignedPlan, order: seq<Group>, endpoints: seq<LogicalEndpoint>, g: Group)
    requires EndpointsFor(h, plan, order, endpoints)
    ensures EndpointsFor(h, plan, order + [g], endpoints + [EndpointFor(h, plan, g, Addresses(plan.endpoints, g))])
  {
    var next, es := order + [g], endpoints + [EndpointFor(h, plan, g, Addresses(plan.endpoints, g))];
    forall j | 0 <= j < |next| ensures es[j] == EndpointFor(h, plan, next[j], Addresses(plan.endpoints, next[j])) {
      assert j < |order| ==> next[j] == order[j] && es[j] == endpoints[j];
    }
  }

  lemma SeedsNext(h: Hashes, plan: SignedPlan, order: seq<Group>, seeds: seq<SeedCandidate>, g: Group, more: seq<SeedCandidate>)
    requires SeedsFor(h, plan, order, seeds)
    requires forall seed :: seed in more <==> SeedOf(h, plan, g, seed)
    ensures SeedsFor(h, plan, order + [g], seeds + more)
  {
    var next := order + [g];
    forall seed ensures seed in seeds + more <==> exists j :: 0 <= j < |next| && SeedOf(h, plan, next[j], seed) {
      if seed in seeds {
        var j :| 0 <= j < |order| && SeedOf(h, plan, order[j], seed);
        assert next[j] == order[j];
      }
      if seed in more {
        assert next[|order|] == g;
      }
      if j :| 0 <= j < |next| && SeedOf(h, plan, next[j], seed) {
        assert j < |order| ==> next[j] == order[j];
      }
    }
  }

  lemma EntriesNext(h: Hashes, plan: SignedPlan, order: seq<Group>, entries: map<U32, Entry>, g: Group, auth: U32, entry: Entry)
    requires EntriesFor(h, plan, order, entries) && auth !in entries
    requires auth == AuthRef(h, g) && entry == EntryFor(h, plan, g, Addresses(plan.endpoints, g))
    ensures EntriesFor(h, plan, order + [g], entries[auth := entry])
  {
    var next, entries' := order + [g], entries[auth := entry];
    assert next[|order|] == g;
    forall x | x in entries' ensures exists j :: 0 <= j < |next| && x == AuthRef(h, next[j]) {
      if x in entries {
        var j :| 0 <= j < |order| && x == AuthRef(h, order[j]);
        assert next[j] == order[j];
      }
    }
    forall j | 0 <= j < |next|
      ensures AuthRef(h, next[j]) in entries' && entries'[AuthRef(h, next[j])] == EntryFor(h, plan, next[j], Addresses(plan.endpoints, next[j])) {
      assert j < |order| ==> next[j] == order[j];
    }
  }

  lemma BoundNext(h: Hashes, order: seq<Group>, bound: map<LogicalId, U32>, g: Group, l: LogicalId)
    requires BoundFor(h, order, bound) && l == LogicalOf(h, g) && l !in bound
    ensures BoundFor(h, order + [g], bound[l := AuthRef(h, g)])
  {
    var next, bound' := order + [g], bound[l := AuthRef(h, g)];
    assert next[|order|] == g;
    forall x | x in bound' ensures exists j :: 0 <= j < |next| && x == LogicalOf(h, next[j]) {
      if x in bound {
        var j :| 0 <= j < |order| && x == LogicalOf(h, order[j]);
        assert next[j] == order[j];
      }
    }
    forall j | 0 <= j < |next| ensures LogicalOf(h, next[j]) in bound' && bound'[LogicalOf(h, next[j])] == AuthRef(h, next[j]) {
      assert j < |order| ==> next[j] == order[j];
    }
  }

  datatype Used = Used(auths: set<U32>, logicals: set<LogicalId>, tokens: set<U64>)

  /** The three identifier sets hold exactly the identifiers of the done groups. */
  ghost predicate Occupied(h: Hashes, plan: SignedPlan, done: set<Group>, used: Used) {
    && (forall x :: x in used.auths <==> exists g :: g in done && x == AuthRef(h, g))
    && (forall x :: x in used.logicals <==> exists g :: g in done && x == LogicalOf(h, g))
    && (forall x :: x in used.tokens <==> exists g :: g in done && x == Token(h, plan, g, Addresses(plan.endpoints, g)))
  }

  lemma SeparateNext(h: Hashes, plan: SignedPlan, done: set<Group>, g: Group, used: Used)
    requires Separate(h, plan, done) && g !in done && Occupied(h, plan, done, used)
    ensures Separate(h, plan, done + {g}) <==>
            AuthRef(h, g) !in used.auths && LogicalOf(h, g) !in used.logicals &&
            Token(h, plan, g, Addresses(plan.endpoints, g)) !in used.tokens && ValidPins(g.pins)
  {
    if Separate(h, plan, done + {g}) {
      forall x | x in done ensures !Collide(h, plan, x, g) {}
    } else if ValidPins(g.pins) {
      var a, b :| a in done + {g} && b in done + {g} && a != b && Collide(h, plan, a, b);
      assert a == g || b == g;
    }
  }

  lemma SeparateSubset(h: Hashes, plan: SignedPlan, some: set<Group>, all: set<Group>)
    requires some <= all && Separate(h, plan, all)
    ensures Separate(h, plan, some)
  {
  }

  lemma OccupiedNext(h: Hashes, plan: SignedPlan, done: set<Group>, g: Group, used: Used)
    requires Occupied(h, plan, done, used)
    ensures Occupied(h, plan, done + {g},
                     Used(used.auths + {AuthRef(h, g)}, used.logicals + {LogicalOf(h, g)},
                          used.tokens + {Token(h, plan, g, Addresses(plan.endpoints, g))}))
  {
  }

  /** Everything collected for the groups of `order`. */
  ghost predicate Collected(h: Hashes, plan: SignedPlan, order: seq<Group>, done: set<Group>, r: Registry,
                            endpoints: seq<LogicalEndpoint>, seeds: seq<SeedCandidate>) {
    Lists(order, done) && RegistryFor(h, plan, order, r.entries, r.logicalToAuth) &&
    EndpointsFor(h, plan, order, endpoints) && SeedsFor(h, plan, order, seeds) &&
    r.epoch == plan.epoch && r.sequence == plan.sequence
  }

  lemma RegistryFresh(h: Hashes, plan: SignedPlan, order: seq<Group>, done: set<Group>, r: Registry,
                      used: Used, g: Group)
    requires Lists(order, done) && RegistryFor(h, plan, order, r.entries, r.logicalToAuth) && Occupied(h, plan, done, used)
    requires AuthRef(h, g) !in used.auths && LogicalOf(h, g) !in used.logicals
    ensures AuthRef(h, g) !in r.entries && LogicalOf(h, g) !in r.logicalToAuth
  {
    assert forall j :: 0 <= j < |order| ==> order[j] in order;
  }

  /** One group: endpoint, seeds and registry entry. */
  method AddGroup(h: Hashes, ghost plan: SignedPlan, ghost order: seq<Group>, ghost done: set<Group>, r: Registry,
                  endpoints: seq<LogicalEndpoint>, seeds: seq<SeedCandidate>, g: Group, addresses: set<Ipv4>)
    returns (r': Registry, endpoints': seq<LogicalEndpoint>, seeds': seq<SeedCandidate>)
    requires Collected(h, plan, order, done, r, endpoints, seeds) && g !in done && addresses == Addresses(plan.endpoints, g)
    requires AuthRef(h, g) !in r.entries && LogicalOf(h, g) !in r.logicalToAuth
    ensures Collected(h, plan, order + [g], done + {g}, r', endpoints', seeds')
  {
    var digest := h.authority(r.epoch, r.sequence, g, addresses);
    var auth, logical, token := AuthRef(h, g), LogicalOf(h, g), FirstU64(digest);
    endpoints' := endpoints + [LogicalEndpoint(logical, g.locator, g.port, Tcp, auth, Authority(token, addresses), AddressPolicy(false))];
    var more := SeedList(logical, addresses);
    seeds' := seeds + more;
    var entry := Entry(logical, auth, token, digest, addresses, g.sni, g.port, g.publicKey, g.shortId, g.pins);
    r' := r.(entries := r.entries[auth := entry], logicalToAuth := r.logicalToAuth[logical := auth]);
    ListsNext(order, done, g);
    EndpointsNext(h, plan, order, endpoints, g);
    SeedsNext(h, plan, order, seeds, g, more);
    EntriesNext(h, plan, order, r.entries, g, auth, entry);
    BoundNext(h, order, r.logicalToAuth, g, logical);
  }

  /** `reject_identifier_collision` for the three identifiers of a group, and its pins. */
  method Claim(h: Hashes, plan: SignedPlan, ghost done: set<Group>, used: Used, g: Group, addresses: set<Ipv4>)
    returns (r: Result<Used, PolicyError>)
    requires Separate(h, plan, done) && g !in done && Occupied(h, plan, done, used) && addresses == Addresses(plan.endpoints, g)
    ensures r.Ok? <==> Separate(h, plan, done + {g})
    ensures r.Ok? ==> Occupied(h, plan, done + {g}, r.value) && AuthRef(h, g) !in used.auths && LogicalOf(h, g) !in used.logicals
  {
    SeparateNext(h, plan, done, g, used);
    OccupiedNext(h, plan, done, g, used);
    var token := Token(h, plan, g, addresses);
    if AuthRef(h, g) in used.auths || LogicalOf(h, g) in used.logicals || token in used.tokens { return Err(Collision); }
    if !ValidPins(g.pins) { return Err(BadPins); }
    return Ok(Used(used.auths + {AuthRef(h, g)}, used.logicals + {LogicalOf(h, g)}, used.tokens + {token}));
  }

  datatype Parts = Parts(registry: Registry, endpoints: seq<LogicalEndpoint>, seeds: seq<SeedCandidate>, used: Used)

  ghost predicate Progress(h: Hashes, plan: SignedPlan, order: seq<Group>, done: set<Group>, s: Parts) {
    Collected(h, plan, order, done, s.registry, s.endpoints, s.seeds) && Occupied(h, plan, done, s.used) && Separate(h, plan, done)
  }

  /** One turn of the loop over groups. */
  method ProcessGroup(h: Hashes, plan: SignedPlan, ghost order: seq<Group>, ghost done: set<Group>, s: Parts, g: Group, addresses: set<Ipv4>)
    returns (t: Result<Parts, PolicyError>)
    requires Progress(h, plan, order, done, s) && g !in done && addresses == Addresses(plan.endpoints, g)
    ensures t.Ok? <==> Separate(h, plan, done + {g})
    ensures t.Ok? ==> Progress(h, plan, order + [g], done + {g}, t.value)
  {
    var claimed := Claim(h, plan, done, s.used, g, addresses);
    if claimed.Err? { return Err(claimed.error); }
    RegistryFresh(h, plan, order, done, s.registry, s.used, g);
    var r, endpoints, seeds := AddGroup(h, plan, order, done, s.registry, s.endpoints, s.seeds, g, addresses);
    return Ok(Parts(r, endpoints, seeds, claimed.value));
  }

  ghost predicate Partition(done: set<Group>, rest: set<Group>, all: set<Group>) {
    forall g :: (g in all <==> g in done || g in rest) && !(g in done && g in rest)
  }

  lemma PartitionNext(h: Hashes, plan: SignedPlan, done: set<Group>, rest: set<Group>, all: set<Group>, g: Group)
    requires Partition(done, rest, all) && g in rest
    ensures Partition(done + {g}, rest - {g}, all) && g in all && g !in done && rest - {g} < rest
    ensures Separate(h, plan, all) ==> Separate(h, plan, done + {g})
  {
    if Separate(h, plan, all) { SeparateSubset(h, plan, done + {g}, all); }
  }

  lemma PartitionDone(done: set<Group>, all: set<Group>)
    requires Partition(done, {}, all)
    ensures done == all
  {
  }

  lemma NoProgress(h: Hashes, plan: SignedPlan)
    ensures Progress(h, plan, [], {}, Parts(Registry(plan.epoch, plan.sequence, map[], map[]), [], [], Used({}, {}, {})))
  {
  }

  method BuildRegistry(h: Hashes, plan: SignedPlan, groups: map<Group, set<Ipv4>>) returns (ok: Result<Parts, PolicyError>, ghost order: seq<Group>)
    requires forall g :: g in groups ==> groups[g] == Addresses(plan.endpoints, g)
    ensures ok.Ok? <==> Separate(h, plan, groups.Keys)
    ensures ok.Ok? ==> Progress(h, plan, order, groups.Keys, ok.value)
  {
    var s := Parts(Registry(plan.epoch, plan.sequence, map[], map[]), [], [], Used({}, {}, {}));
    var rest := groups.Keys;
    ghost var done: set<Group> := {};
    order := [];
    NoProgress(h, plan);
    while rest != {}
      invariant Partition(done, rest, groups.Keys)
      invariant Progress(h, plan, order, done, s)
      decreases rest
    {
      var g :| g in rest;
      PartitionNext(h, plan, done, rest, groups.Keys, g);
      var t := ProcessGroup(h, plan, order, done, s, g, groups[g]);
      if t.Err? { ok := Err(t.error); return; }
      s, order, done, rest := t.value, order + [g], done + {g}, rest - {g};
    }
    PartitionDone(done, groups.Keys);
    ok := Ok(s);
  }

  // ------------------------------------------------------------------ the coordinator

  lemma GroupWitness(plan: SignedPlan, order: seq<Group>, j: nat) returns (i: nat)
    requires Lists(order, Groups(plan.endpoints)) && j < |order|
    ensures i < |plan.endpoints| && GroupOf(plan.endpoints[i]) == order[j]
  {
    assert order[j] in order;
    i :| 0 <= i < |plan.endpoints| && GroupOf(plan.endpoints[i]) == order[j];
  }

  lemma GroupIndex(plan: SignedPlan, order: seq<Group>, i: nat) returns (j: nat)
    requires Lists(order, Groups(plan.endpoints)) && i < |plan.endpoints|
    ensures j < |order| && order[j] == GroupOf(plan.endpoints[i]) && plan.endpoints[i].ip in Addresses(plan.endpoints, order[j])
  {
    assert GroupOf(plan.endpoints[i]) in order;
    j :| 0 <= j < |order| && order[j] == GroupOf(plan.endpoints[i]);
  }

  lemma EndpointAccepted(h: Hashes, plan: SignedPlan, order: seq<Group>, endpoints: seq<LogicalEndpoint>, j: nat)
    requires Lists(order, Groups(plan.endpoints)) && EndpointsFor(h, plan, order, endpoints) && j < |order|
    requires Groupable(plan.endpoints) && Coordinable(plan.endpoints)
    ensures ValidEndpoint(endpoints[j])
  {
    var i := GroupWitness(plan, order, j);
    assert ValidGroup(GroupOf(plan.endpoints[i]));
    forall ip | ip in Addresses(plan.endpoints, order[j]) ensures AddressPolicy(false).Permits(ip) {
      var k :| 0 <= k < |plan.endpoints| && GroupOf(plan.endpoints[k]) == order[j] && plan.endpoints[k].ip == ip;
    }
  }

  lemma SeedAccepted(h: Hashes, plan: SignedPlan, order: seq<Group>, endpoints: seq<LogicalEndpoint>, seeds: seq<SeedCandidate>, seed: SeedCandidate)
    requires EndpointsFor(h, plan, order, endpoints) && SeedsFor(h, plan, order, seeds) && seed in seeds
    requires forall j :: 0 <= j < |endpoints| ==> ValidEndpoint(endpoints[j])
    ensures SeedFits(endpoints, seed)
  {
    var j :| 0 <= j < |order| && SeedOf(h, plan, order[j], seed);
    assert endpoints[j].id == seed.logical && seed.ip in endpoints[j].authority.allowed;
  }

  lemma CoordinableAccepted(h: Hashes, plan: SignedPlan, order: seq<Group>, endpoints: seq<LogicalEndpoint>, seeds: seq<SeedCandidate>)
    requires plan.endpoints != [] && Groupable(plan.endpoints) && Separate(h, plan, Groups(plan.endpoints)) && Coordinable(plan.endpoints)
    requires Lists(order, Groups(plan.endpoints)) && EndpointsFor(h, plan, order, endpoints) && SeedsFor(h, plan, order, seeds)
    ensures Accepts(endpoints, seeds)
  {
    var j := GroupIndex(plan, order, 0);
    var seed := SeedCandidate(LogicalOf(h, order[j]), plan.endpoints[0].ip);
    assert SeedOf(h, plan, order[j], seed) && seed in seeds;
    forall j | 0 <= j < |endpoints| ensures ValidEndpoint(endpoints[j]) {
      EndpointAccepted(h, plan, order, endpoints, j);
    }
    forall i, j | 0 <= i < j < |endpoints| ensures endpoints[i].id != endpoints[j].id {
      assert order[i] in order && order[j] in order;
      assert !Collide(h, plan, order[i], order[j]);
    }
    forall k | 0 <= k < |seeds| ensures SeedFits(endpoints, seeds[k]) {
      SeedAccepted(h, plan, order, endpoints, seeds, seeds[k]);
    }
  }

  lemma AcceptedCoordinable(h: Hashes, plan: SignedPlan, order: seq<Group>, endpoints: seq<LogicalEndpoint>, seeds: seq<SeedCandidate>)
    requires Lists(order, Groups(plan.endpoints)) && EndpointsFor(h, plan, order, endpoints) && Accepts(endpoints, seeds)
    ensures Coordinable(plan.endpoints)
  {
    forall i | 0 <= i < |plan.endpoints|
      ensures ValidHostname(plan.endpoints[i].locator) && AddressPolicy(false).Permits(plan.endpoints[i].ip) {
      var j := GroupIndex(plan, order, i);
      assert ValidEndpoint(endpoints[j]);
    }
  }

  /** `from_verified_plan`: succeeds exactly on acceptable plans, and builds the
      registry, endpoints and seeds of all signed groups. */
  method FromVerifiedPlan(h: Hashes, plan: SignedPlan, now: U64)
    returns (r: Result<(EndpointCoordinator, Registry), PolicyError>, ghost order: seq<Group>,
             ghost endpoints: seq<LogicalEndpoint>, ghost seeds: seq<SeedCandidate>)
    ensures r.Ok? <==> AcceptablePlan(h, plan)
    ensures r.Ok? ==> Built(h, plan, order, r.value.1, endpoints, seeds)
    ensures r.Ok? ==> fresh(r.value.0) && Accepts(endpoints, seeds) && IsInitial(r.value.0.View(), endpoints, seeds, now)
  {
    order, endpoints, seeds := [], [], [];
    if plan.endpoints == [] { r := Err(EmptyPlan); return; }
    var groups := GroupEndpoints(plan.endpoints);
    if groups.Err? { r := Err(groups.error); return; }
    var built;
    built, order := BuildRegistry(h, plan, groups.value);
    if built.Err? { r := Err(built.error); return; }
    endpoints, seeds := built.value.endpoints, built.value.seeds;
    if Coordinable(plan.endpoints) { CoordinableAccepted(h, plan, order, endpoints, seeds); }
    if Accepts(endpoints, seeds) { AcceptedCoordinable(h, plan, order, endpoints, seeds); }
    var coordinator := EndpointCoordinator.New(built.value.endpoints, built.value.seeds, now);
    if coordinator.Err? { r := Err(Rejected(coordinator.error)); return; }
    r := Ok((coordinator.value, built.value.registry));
  }
}
