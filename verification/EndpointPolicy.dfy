/** From a verified signed plan to the coordinator and the authentication
    registry, and back: every dial target is one signed endpoint. Digests are
    arbitrary functions; nothing here relies on their strength. */
module EndpointPolicy {
  import opened Prelude
  import opened Names
  import opened EndpointPlan
  import opened Endpoint
  import opened EndpointInvariant
  import opened EndpointRuns
  import opened EndpointSafety

  const MAX_SHORT_ID_BYTES := 8
  const MAX_SERVER_PINS := 3

  type Digest = d: Bytes | |d| == 32 witness seq(32, _ => 0)

  datatype SignedEndpoint = SignedEndpoint(
    endpointId: Bytes, ip: Ipv4, port: U16, locator: Bytes, sni: Bytes,
    publicKey: Digest, shortId: Bytes, pins: seq<Digest>)

  datatype SignedPlan = SignedPlan(epoch: U64, sequence: U64, endpoints: seq<SignedEndpoint>)

  /** Authentication group: everything about an endpoint but its address. */
  datatype Group = Group(locator: Bytes, sni: Bytes, port: U16, publicKey: Digest, shortId: Bytes, pins: seq<Digest>)

  datatype Hashes = Hashes(auth: Group -> Digest, logical: Group -> Digest, authority: (U64, U64, Group, set<Ipv4>) -> Digest)

  datatype Entry = Entry(
    logical: LogicalId, auth: U32, generation: U64, digest: Digest, addresses: set<Ipv4>,
    sni: Bytes, port: U16, publicKey: Digest, shortId: Bytes, pins: seq<Digest>)

  datatype Registry = Registry(epoch: U64, sequence: U64, entries: map<U32, Entry>, logicalToAuth: map<LogicalId, U32>)

  datatype Target = Target(
    epoch: U64, sequence: U64, logical: LogicalId, auth: U32, digest: Digest, ip: Ipv4, port: U16,
    sni: Bytes, publicKey: Digest, shortId: Bytes, pins: seq<Digest>)

  datatype PolicyError =
    | EmptyPlan | DuplicateEndpoint | BadEndpoint | DuplicateMapping | Collision | BadPins
    | Rejected(error: Error)

  datatype LookupError =
    | UnknownAuth | UnboundLogical | CrossedGroup | NotTcp | AddressMismatch | PortMismatch | OutsideAuthority | StaleGeneration

  // ----------------------------------------------------------------- declarative view

  function GroupOf(e: SignedEndpoint): Group {
    Group(e.locator, e.sni, e.port, e.publicKey, e.shortId, e.pins)
  }

  function Pow256(n: nat): (p: nat)
    ensures p >= 1
  {
    if n == 0 then 1 else 0x100 * Pow256(n - 1)
  }

  function BigEndian(b: Bytes): (n: nat)
    ensures n < Pow256(|b|)
  {
    if b == [] then 0 else BigEndian(b[..|b| - 1]) * 0x100 + b[|b| - 1]
  }

  function FirstU32(d: Digest): U32 {
    assert Pow256(4) == 0x1_0000_0000 by { assert Pow256(2) == 0x1_0000; }
    BigEndian(d[..4])
  }

  function FirstU64(d: Digest): U64 {
    assert Pow256(8) == 0x1_0000_0000_0000_0000 by { assert Pow256(4) == 0x1_0000_0000; assert Pow256(6) == 0x1_0000_0000_0000; }
    BigEndian(d[..8])
  }

  function Word(a: nat, b: nat, c: nat, d: nat): nat { ((a * 0x100 + b) * 0x100 + c) * 0x100 + d }

  /** The leading bytes, most significant first. */
  lemma LeadingBytes(d: Digest)
    ensures FirstU32(d) == Word(d[0], d[1], d[2], d[3])
    ensures FirstU64(d) == Word(d[0], d[1], d[2], d[3]) * 0x1_0000_0000 + Word(d[4], d[5], d[6], d[7])
  {
    FourMore([], d[..4]);
    FourMore(d[..4], d[4..8]);
    assert [] + d[..4] == d[..4] && d[..4] + d[4..8] == d[..8];
  }

  lemma FourMore(a: Bytes, b: Bytes)
    requires |b| == 4
    ensures BigEndian(a + b) == BigEndian(a) * 0x1_0000_0000 + Word(b[0], b[1], b[2], b[3])
  {
    var s := a + b;
    assert s[..|a|] == a && s[..|a| + 1][..|a|] == a && s[..|a| + 2][..|a| + 1] == s[..|a| + 1] && s[..|a| + 3][..|a| + 2] == s[..|a| + 2];
    assert BigEndian(s[..|a| + 1]) == BigEndian(a) * 0x100 + b[0];
    assert BigEndian(s[..|a| + 2]) == BigEndian(s[..|a| + 1]) * 0x100 + b[1];
    assert BigEndian(s[..|a| + 3]) == BigEndian(s[..|a| + 2]) * 0x100 + b[2];
  }

  ghost function Groups(es: seq<SignedEndpoint>): set<Group> {
    set i | 0 <= i < |es| :: GroupOf(es[i])
  }

  ghost function Addresses(es: seq<SignedEndpoint>, g: Group): set<Ipv4> {
    set i | 0 <= i < |es| && GroupOf(es[i]) == g :: es[i].ip
  }

  function AuthRef(h: Hashes, g: Group): U32 { FirstU32(h.auth(g)) }

  function LogicalOf(h: Hashes, g: Group): LogicalId { FirstU64(h.logical(g)) }

  function Token(h: Hashes, plan: SignedPlan, g: Group, addresses: set<Ipv4>): U64 {
    FirstU64(h.authority(plan.epoch, plan.sequence, g, addresses))
  }

  function EndpointFor(h: Hashes, plan: SignedPlan, g: Group, addresses: set<Ipv4>): LogicalEndpoint {
    LogicalEndpoint(LogicalOf(h, g), g.locator, g.port, Tcp, AuthRef(h, g),
                    Authority(Token(h, plan, g, addresses), addresses), AddressPolicy(false))
  }

  function EntryFor(h: Hashes, plan: SignedPlan, g: Group, addresses: set<Ipv4>): Entry {
    Entry(LogicalOf(h, g), AuthRef(h, g), Token(h, plan, g, addresses), h.authority(plan.epoch, plan.sequence, g, addresses),
          addresses, g.sni, g.port, g.publicKey, g.shortId, g.pins)
  }

  predicate ValidGroup(g: Group) {
    g.locator != [] && g.sni != [] && g.port != 0 && |g.shortId| == MAX_SHORT_ID_BYTES && g.pins != []
  }

  predicate ValidPins(pins: seq<Digest>) {
    1 <= |pins| <= MAX_SERVER_PINS && forall i, j :: 0 <= i < j < |pins| ==> pins[i] != pins[j]
  }

  /** The signed endpoints can be grouped without ambiguity. */
  ghost predicate Groupable(es: seq<SignedEndpoint>) {
    && (forall i :: 0 <= i < |es| ==> ValidGroup(GroupOf(es[i])))
    && (forall i, j :: 0 <= i < j < |es| ==> es[i].endpointId != es[j].endpointId)
    && (forall i, j :: 0 <= i < j < |es| ==> GroupOf(es[i]) != GroupOf(es[j]) || es[i].ip != es[j].ip)
  }

  ghost predicate Collide(h: Hashes, plan: SignedPlan, a: Group, b: Group) {
    AuthRef(h, a) == AuthRef(h, b) || LogicalOf(h, a) == LogicalOf(h, b) ||
    Token(h, plan, a, Addresses(plan.endpoints, a)) == Token(h, plan, b, Addresses(plan.endpoints, b))
  }

  /** Compact identifiers are distinct and pins are usable on these groups. */
  ghost predicate Separate(h: Hashes, plan: SignedPlan, groups: set<Group>) {
    && (forall g :: g in groups ==> ValidPins(g.pins))
    && (forall a, b :: a in groups && b in groups && a != b ==> !Collide(h, plan, a, b))
  }

  ghost predicate Coordinable(es: seq<SignedEndpoint>) {
    forall i :: 0 <= i < |es| ==> ValidHostname(es[i].locator) && AddressPolicy(false).Permits(es[i].ip)
  }

  /** Exactly the plans that become a policy. */
  ghost predicate AcceptablePlan(h: Hashes, plan: SignedPlan) {
    plan.endpoints != [] && Groupable(plan.endpoints) && Separate(h, plan, Groups(plan.endpoints)) && Coordinable(plan.endpoints)
  }

  /** What a policy promises of every signed endpoint it was built from. */
  lemma AcceptedEndpoint(h: Hashes, plan: SignedPlan, e: SignedEndpoint)
    requires AcceptablePlan(h, plan) && e in plan.endpoints
    ensures e.locator != [] && e.sni != [] && e.port != 0 && |e.shortId| == 8 && ValidHostname(e.locator) && AddressPolicy(false).Permits(e.ip)
    ensures |e.pins| in {1, 2, 3} && forall i, j :: 0 <= i < j < |e.pins| ==> e.pins[i] != e.pins[j]
  {
    var i :| 0 <= i < |plan.endpoints| && plan.endpoints[i] == e;
    assert GroupOf(plan.endpoints[i]) in Groups(plan.endpoints);
  }

  /** And of every two of them: other identifiers, and in one group other addresses; two
      groups share no identifier. */
  lemma AcceptedPair(h: Hashes, plan: SignedPlan, i: nat, j: nat)
    requires AcceptablePlan(h, plan) && i < j < |plan.endpoints|
    ensures var a, b := plan.endpoints[i], plan.endpoints[j];
            && a.endpointId != b.endpointId
            && (if GroupOf(a) == GroupOf(b) then a.ip != b.ip
                else AuthRef(h, GroupOf(a)) != AuthRef(h, GroupOf(b)) && LogicalOf(h, GroupOf(a)) != LogicalOf(h, GroupOf(b)))
  {
    assert GroupOf(plan.endpoints[i]) in Groups(plan.endpoints) && GroupOf(plan.endpoints[j]) in Groups(plan.endpoints);
  }

  // --------------------------------------------------------------- what is built

  /** `order` lists the groups, once each, in the order they are processed. */
  ghost predicate Lists(order: seq<Group>, groups: set<Group>) {
    (forall g :: g in order <==> g in groups) &&
    (forall i, j :: 0 <= i < j < |order| ==> order[i] != order[j])
  }

  ghost predicate EndpointsFor(h: Hashes, plan: SignedPlan, order: seq<Group>, endpoints: seq<LogicalEndpoint>) {
    |endpoints| == |order| &&
    forall j :: 0 <= j < |order| ==> endpoints[j] == EndpointFor(h, plan, order[j], Addresses(plan.endpoints, order[j]))
  }

  ghost predicate SeedOf(h: Hashes, plan: SignedPlan, g: Group, seed: SeedCandidate) {
    seed.logical == LogicalOf(h, g) && seed.ip in Addresses(plan.endpoints, g)
  }

  ghost predicate SeedsFor(h: Hashes, plan: SignedPlan, order: seq<Group>, seeds: seq<SeedCandidate>) {
    forall seed :: seed in seeds <==> exists j :: 0 <= j < |order| && SeedOf(h, plan, order[j], seed)
  }

  ghost predicate EntriesFor(h: Hashes, plan: SignedPlan, order: seq<Group>, entries: map<U32, Entry>) {
    && (forall auth :: auth in entries ==> exists j :: 0 <= j < |order| && auth == AuthRef(h, order[j]))
    && (forall j :: 0 <= j < |order| ==>
          AuthRef(h, order[j]) in entries &&
          entries[AuthRef(h, order[j])] == EntryFor(h, plan, order[j], Addresses(plan.endpoints, order[j])))
  }

  ghost predicate BoundFor(h: Hashes, order: seq<Group>, bound: map<LogicalId, U32>) {
    && (forall l :: l in bound ==> exists j :: 0 <= j < |order| && l == LogicalOf(h, order[j]))
    && (forall j :: 0 <= j < |order| ==> LogicalOf(h, order[j]) in bound && bound[LogicalOf(h, order[j])] == AuthRef(h, order[j]))
  }

  ghost predicate RegistryFor(h: Hashes, plan: SignedPlan, order: seq<Group>, entries: map<U32, Entry>, bound: map<LogicalId, U32>) {
    EntriesFor(h, plan, order, entries) && BoundFor(h, order, bound)
  }

  ghost predicate Built(h: Hashes, plan: SignedPlan, order: seq<Group>, r: Registry, endpoints: seq<LogicalEndpoint>, seeds: seq<SeedCandidate>) {
    && Lists(order, Groups(plan.endpoints))
    && r.epoch == plan.epoch && r.sequence == plan.sequence
    && RegistryFor(h, plan, order, r.entries, r.logicalToAuth)
    && EndpointsFor(h, plan, order, endpoints) && SeedsFor(h, plan, order, seeds)
  }

  // ----------------------------------------------------------------------- lookup

  function Lookup(r: Registry, d: DialCandidate): Result<Target, LookupError> {
    if d.auth !in r.entries then Err(UnknownAuth)
    else
      var e := r.entries[d.auth];
      if d.key.logical !in r.logicalToAuth || r.logicalToAuth[d.key.logical] != d.auth then Err(UnboundLogical)
      else if e.logical != d.key.logical || e.auth != d.auth then Err(CrossedGroup)
      else if !d.protocol.Tcp? then Err(NotTcp)
      else if d.key.ip != d.ip then Err(AddressMismatch)
      else if d.port != e.port then Err(PortMismatch)
      else if d.key.ip !in e.addresses then Err(OutsideAuthority)
      else if d.authorityGeneration != e.generation then Err(StaleGeneration)
      else Ok(Target(r.epoch, r.sequence, e.logical, e.auth, e.digest, d.ip, d.port, e.sni, e.publicKey, e.shortId, e.pins))
  }

  /** `d` is how the coordinator presents address `d.ip` of group `g`. */
  ghost predicate Presents(h: Hashes, plan: SignedPlan, g: Group, d: DialCandidate) {
    var addresses := Addresses(plan.endpoints, g);
    g in Groups(plan.endpoints) && d.ip in addresses &&
    d == DialCandidate(Key(LogicalOf(h, g), d.ip), d.ip, g.port, Tcp, AuthRef(h, g), Token(h, plan, g, addresses))
  }

  /** The target carries the address, port and all authentication data of `e`. */
  ghost predicate TargetOf(t: Target, plan: SignedPlan, e: SignedEndpoint) {
    t.ip == e.ip && t.port == e.port && t.sni == e.sni && t.publicKey == e.publicKey && t.shortId == e.shortId &&
    t.pins == e.pins && t.epoch == plan.epoch && t.sequence == plan.sequence
  }

  lemma EntryOf(h: Hashes, plan: SignedPlan, order: seq<Group>, r: Registry, g: Group)
    requires RegistryFor(h, plan, order, r.entries, r.logicalToAuth) && g in order
    ensures AuthRef(h, g) in r.entries && r.entries[AuthRef(h, g)] == EntryFor(h, plan, g, Addresses(plan.endpoints, g))
    ensures LogicalOf(h, g) in r.logicalToAuth && r.logicalToAuth[LogicalOf(h, g)] == AuthRef(h, g)
  {
    var j :| 0 <= j < |order| && order[j] == g;
  }

  lemma EntryReleases(h: Hashes, plan: SignedPlan, r: Registry, g: Group, d: DialCandidate)
    requires g in Groups(plan.endpoints) && d.auth == AuthRef(h, g)
    requires d.auth in r.entries && r.entries[d.auth] == EntryFor(h, plan, g, Addresses(plan.endpoints, g))
    requires LogicalOf(h, g) in r.logicalToAuth && r.logicalToAuth[LogicalOf(h, g)] == d.auth
    ensures Lookup(r, d).Ok? <==> Presents(h, plan, g, d)
    ensures Lookup(r, d).Ok? ==> exists e :: e in plan.endpoints && e.ip == d.ip && GroupOf(e) == g
  {
    if Lookup(r, d).Ok? {
      var i :| 0 <= i < |plan.endpoints| && GroupOf(plan.endpoints[i]) == g && plan.endpoints[i].ip == d.ip;
      assert plan.endpoints[i] in plan.endpoints;
    }
  }

  lemma ReleasingGroup(h: Hashes, plan: SignedPlan, order: seq<Group>, r: Registry, d: DialCandidate) returns (g: Group)
    requires Lists(order, Groups(plan.endpoints)) && RegistryFor(h, plan, order, r.entries, r.logicalToAuth)
    requires d.auth in r.entries
    ensures g in order && d.auth == AuthRef(h, g)
  {
    var j :| 0 <= j < |order| && d.auth == AuthRef(h, order[j]);
    g := order[j];
  }

  /** Lookup releases a target for exactly the candidates that present a signed
      address of a signed group, whoever made the candidate up. */
  lemma LookupExact(h: Hashes, plan: SignedPlan, order: seq<Group>, r: Registry, d: DialCandidate)
    requires Lists(order, Groups(plan.endpoints)) && RegistryFor(h, plan, order, r.entries, r.logicalToAuth)
    ensures Lookup(r, d).Ok? <==> exists g :: Presents(h, plan, g, d)
  {
    if Lookup(r, d).Ok? {
      var g := ReleasingGroup(h, plan, order, r, d);
      EntryOf(h, plan, order, r, g);
      EntryReleases(h, plan, r, g, d);
    }
    if g :| Presents(h, plan, g, d) {
      EntryOf(h, plan, order, r, g);
      EntryReleases(h, plan, r, g, d);
    }
  }

  /** No lookup ever mixes two signed endpoints. */
  lemma LookupSound(h: Hashes, plan: SignedPlan, order: seq<Group>, r: Registry, d: DialCandidate, t: Target)
    requires Lists(order, Groups(plan.endpoints)) && RegistryFor(h, plan, order, r.entries, r.logicalToAuth)
    requires r.epoch == plan.epoch && r.sequence == plan.sequence && Lookup(r, d) == Ok(t)
    ensures exists e :: e in plan.endpoints && TargetOf(t, plan, e) && BoundTo(t, h, plan, GroupOf(e)) && t.ip == d.ip
  {
    var g := ReleasingGroup(h, plan, order, r, d);
    EntryOf(h, plan, order, r, g);
    EntryReleases(h, plan, r, g, d);
    var e :| e in plan.endpoints && e.ip == d.ip && GroupOf(e) == g;
    assert TargetOf(t, plan, e) && BoundTo(t, h, plan, GroupOf(e));
  }

  /** The target carries the identifiers and the authority digest of its group. */
  ghost predicate BoundTo(t: Target, h: Hashes, plan: SignedPlan, g: Group) {
    t.logical == LogicalOf(h, g) && t.auth == AuthRef(h, g) && t.digest == h.authority(plan.epoch, plan.sequence, g, Addresses(plan.endpoints, g))
  }

  // --------------------------------------------------------------- containment over runs

  lemma SpecPresents(h: Hashes, plan: SignedPlan, order: seq<Group>, endpoints: seq<LogicalEndpoint>, logical: Logicals, k: Key, j: nat)
    requires Lists(order, Groups(plan.endpoints)) && EndpointsFor(h, plan, order, endpoints) && Authorized(logical, k)
    requires j < |endpoints| && endpoints[j].id == k.logical && logical[k.logical].spec == endpoints[j]
    ensures Presents(h, plan, order[j], Dial(logical, k))
  {
    assert order[j] in order;
  }

  lemma SnapshotMember(c: Coordinator, d: DialCandidate)
    requires Inv(c) && d in c.snapshot.candidates
    ensures d.key in c.candidates && Authorized(c.logical, d.key) && d == Dial(c.logical, d.key)
  {
  }

  lemma RunSpec(states: seq<System>, events: seq<Event>, endpoints: seq<LogicalEndpoint>, seeds: seq<SeedCandidate>, now: U64, i: nat, l: LogicalId) returns (j: nat)
    requires IsRun(states, events, endpoints, seeds, now) && i < |states| && l in states[i].live.logical
    ensures j < |endpoints| && endpoints[j].id == l && states[i].live.logical[l].spec == endpoints[j]
  {
    RunEvolves(states, events, endpoints, seeds, now, 0, i);
    j := InitialSpec(states[0].live, endpoints, seeds, now, l);
  }

  lemma PublishedPresents(h: Hashes, plan: SignedPlan, order: seq<Group>, endpoints: seq<LogicalEndpoint>, seeds: seq<SeedCandidate>,
                          now: U64, states: seq<System>, events: seq<Event>, i: nat, d: DialCandidate)
    requires Lists(order, Groups(plan.endpoints)) && EndpointsFor(h, plan, order, endpoints)
    requires IsRun(states, events, endpoints, seeds, now) && i < |states| && d in states[i].live.snapshot.candidates
    ensures exists g :: Presents(h, plan, g, d)
  {
    RunInvariant(states, events, endpoints, seeds, now, i);
    SnapshotMember(states[i].live, d);
    var j := RunSpec(states, events, endpoints, seeds, now, i, d.key.logical);
    SpecPresents(h, plan, order, endpoints, states[i].live.logical, d.key, j);
  }

  /** In every state of every run of a policy, whatever the network answered,
      each published candidate passes lookup, and its target is one signed endpoint. */
  lemma PublishedTargetsAreSigned(h: Hashes, plan: SignedPlan, order: seq<Group>, r: Registry, endpoints: seq<LogicalEndpoint>, seeds: seq<SeedCandidate>,
                                  now: U64, states: seq<System>, events: seq<Event>, i: nat, d: DialCandidate)
    requires Built(h, plan, order, r, endpoints, seeds)
    requires IsRun(states, events, endpoints, seeds, now) && i < |states| && d in states[i].live.snapshot.candidates
    ensures Lookup(r, d).Ok?
    ensures exists e :: e in plan.endpoints && TargetOf(Lookup(r, d).value, plan, e)
  {
    PublishedPresents(h, plan, order, endpoints, seeds, now, states, events, i, d);
    LookupExact(h, plan, order, r, d);
    LookupSound(h, plan, order, r, d, Lookup(r, d).value);
  }
}
