/** Host operations and ordered transition plans of the live endpoint
    coordinator, and their meaning on the host: the set of firewall tuples that
    are allowed and the set of addresses that have a bypass route. */
module EndpointPlan {
  import opened Prelude
  import opened Ordered

  type LogicalId = U64
  type Ipv4 = U32

  datatype Protocol = Tcp | Udp

  datatype Tuple = Tuple(ip: Ipv4, port: U16, protocol: Protocol)

  datatype Op =
    | Allow(tuple: Tuple)
    | Deny(tuple: Tuple)
    | AddBypass(ip: Ipv4)
    | RemoveBypass(ip: Ipv4)
    | Publish(from: U64, to: U64)

  /** Whether a plan publishes a snapshot, and between which generations. */
  datatype Marker = NoPublication | Publication(from: U64, to: U64)

  datatype Host = Host(allowed: set<Tuple>, bypass: set<Ipv4>)

  // ---------------------------------------------------------------- ordering

  function TupleRank(t: Tuple): int {
    (t.ip * 0x1_0000 + t.port) * 2 + (if t.protocol.Tcp? then 0 else 1)
  }

  lemma TupleRankInjective()
    ensures forall s: set<Tuple> :: InjectiveOn(s, TupleRank)
  {
  }

  lemma SortedTuplesExist(s: set<Tuple>)
    ensures exists r :: (forall x :: x in r <==> x in s) && StrictlySorted(r, TupleRank)
  {
    TupleRankInjective();
    var r := Ascending(s, TupleRank);
  }

  /** The iteration order of a `BTreeSet` or the keys of a `BTreeMap`. */
  ghost function SortedTuples(s: set<Tuple>): (r: seq<Tuple>)
    ensures forall x :: x in r <==> x in s
    ensures StrictlySorted(r, TupleRank)
  {
    SortedTuplesExist(s);
    var r :| (forall x :: x in r <==> x in s) && StrictlySorted(r, TupleRank);
    r
  }

  function IpRank(ip: Ipv4): int { ip }

  lemma SortedIpsExist(s: set<Ipv4>)
    ensures exists r :: (forall x :: x in r <==> x in s) && StrictlySorted(r, IpRank)
  {
    var r := Ascending(s, IpRank);
  }

  ghost function SortedIps(s: set<Ipv4>): (r: seq<Ipv4>)
    ensures forall x :: x in r <==> x in s
    ensures StrictlySorted(r, IpRank)
  {
    SortedIpsExist(s);
    var r :| (forall x :: x in r <==> x in s) && StrictlySorted(r, IpRank);
    r
  }

  // ------------------------------------------------------------ host meaning

  function Apply(h: Host, op: Op): Host {
    match op
    case Allow(t) => h.(allowed := h.allowed + {t})
    case Deny(t) => h.(allowed := h.allowed - {t})
    case AddBypass(ip) => h.(bypass := h.bypass + {ip})
    case RemoveBypass(ip) => h.(bypass := h.bypass - {ip})
    case Publish(_, _) => h
  }

  function Exec(h: Host, ops: seq<Op>): Host {
    if ops == [] then h else Apply(Exec(h, ops[..|ops| - 1]), ops[|ops| - 1])
  }

  lemma ExecAppend(h: Host, ops: seq<Op>, op: Op)
    ensures Exec(h, ops + [op]) == Apply(Exec(h, ops), op)
  {
    assert (ops + [op])[..|ops|] == ops;
  }

  /** Membership after a run of operations in which nothing is both added and
      removed depends only on which operations occur, not on their order. */
  lemma {:induction false} ExecAllowed(h: Host, ops: seq<Op>, t: Tuple)
    requires !(Allow(t) in ops && Deny(t) in ops)
    ensures t in Exec(h, ops).allowed <==> (Allow(t) in ops || (t in h.allowed && Deny(t) !in ops))
  {
    if ops != [] {
      var init, last := ops[..|ops| - 1], ops[|ops| - 1];
      assert ops == init + [last];
      ExecAllowed(h, init, t);
    }
  }

  lemma {:induction false} ExecBypass(h: Host, ops: seq<Op>, ip: Ipv4)
    requires !(AddBypass(ip) in ops && RemoveBypass(ip) in ops)
    ensures ip in Exec(h, ops).bypass <==>
            (AddBypass(ip) in ops || (ip in h.bypass && RemoveBypass(ip) !in ops))
  {
    if ops != [] {
      var init, last := ops[..|ops| - 1], ops[|ops| - 1];
      assert ops == init + [last];
      ExecBypass(h, init, ip);
    }
  }

  // ---------------------------------------------------------------- inverses

  function HostInverse(op: Op): Option<Op> {
    match op
    case Allow(t) => Some(Deny(t))
    case Deny(t) => Some(Allow(t))
    case AddBypass(ip) => Some(RemoveBypass(ip))
    case RemoveBypass(ip) => Some(AddBypass(ip))
    case Publish(_, _) => None
  }

  /** Inverses of the executed operations, last executed first. */
  function Undo(ops: seq<Op>): seq<Op> {
    if ops == [] then [] else
      var rest := Undo(ops[..|ops| - 1]);
      match HostInverse(ops[|ops| - 1])
      case Some(inverse) => [inverse] + rest
      case None => rest
  }

  /** Whether executing `op` on `h` changes it (a publish marker never does). */
  predicate Effective(h: Host, op: Op) {
    match op
    case Allow(t) => t !in h.allowed
    case Deny(t) => t in h.allowed
    case AddBypass(ip) => ip !in h.bypass
    case RemoveBypass(ip) => ip in h.bypass
    case Publish(_, _) => true
  }

  ghost predicate AllEffective(h: Host, ops: seq<Op>) {
    forall i :: 0 <= i < |ops| ==> Effective(Exec(h, ops[..i]), ops[i])
  }

  lemma {:induction false} ExecConcat(h: Host, a: seq<Op>, b: seq<Op>)
    ensures Exec(h, a + b) == Exec(Exec(h, a), b)
  {
    if b == [] {
      assert a + b == a;
    } else {
      var init, last := b[..|b| - 1], b[|b| - 1];
      assert a + b == (a + init) + [last];
      ExecAppend(h, a + init, last);
      ExecConcat(h, a, init);
    }
  }

  lemma {:induction false} UndoRestores(h: Host, ops: seq<Op>)
    requires AllEffective(h, ops)
    ensures Exec(Exec(h, ops), Undo(ops)) == h
  {
    if ops != [] {
      var init, last := ops[..|ops| - 1], ops[|ops| - 1];
      var before := Exec(h, init);
      assert AllEffective(h, init) by {
        forall i | 0 <= i < |init| ensures Effective(Exec(h, init[..i]), init[i]) {
          assert init[..i] == ops[..i];
          assert init[i] == ops[i];
        }
      }
      UndoRestores(h, init);
      assert Effective(Exec(h, ops[..|ops| - 1]), ops[|ops| - 1]);
      if HostInverse(last).Some? {
        var inverse := HostInverse(last).value;
        assert Apply(Apply(before, last), inverse) == before;
        ExecConcat(Exec(h, ops), [inverse], Undo(init));
        ExecAppend(Exec(h, ops), [], inverse);
      }
    }
  }

  // ------------------------------------------------------------------- plans

  function Allows(ts: seq<Tuple>): (r: seq<Op>)
    ensures |r| == |ts| && forall i :: 0 <= i < |r| ==> r[i] == Allow(ts[i])
  {
    seq(|ts|, i requires 0 <= i < |ts| => Allow(ts[i]))
  }

  function Denies(ts: seq<Tuple>): (r: seq<Op>)
    ensures |r| == |ts| && forall i :: 0 <= i < |r| ==> r[i] == Deny(ts[i])
  {
    seq(|ts|, i requires 0 <= i < |ts| => Deny(ts[i]))
  }

  function Adds(ips: seq<Ipv4>): (r: seq<Op>)
    ensures |r| == |ips| && forall i :: 0 <= i < |r| ==> r[i] == AddBypass(ips[i])
  {
    seq(|ips|, i requires 0 <= i < |ips| => AddBypass(ips[i]))
  }

  function Removes(ips: seq<Ipv4>): (r: seq<Op>)
    ensures |r| == |ips| && forall i :: 0 <= i < |r| ==> r[i] == RemoveBypass(ips[i])
  {
    seq(|ips|, i requires 0 <= i < |ips| => RemoveBypass(ips[i]))
  }

  lemma TupleGroups(s: set<Tuple>, op: Op)
    ensures op in Allows(SortedTuples(s)) <==> op.Allow? && op.tuple in s
    ensures op in Denies(SortedTuples(s)) <==> op.Deny? && op.tuple in s
  {
    var ts := SortedTuples(s);
    if (op.Allow? || op.Deny?) && op.tuple in s {
      var i :| 0 <= i < |ts| && ts[i] == op.tuple;
      assert Allows(ts)[i] == Allow(op.tuple) && Denies(ts)[i] == Deny(op.tuple);
    }
  }

  lemma IpGroups(s: set<Ipv4>, op: Op)
    ensures op in Adds(SortedIps(s)) <==> op.AddBypass? && op.ip in s
    ensures op in Removes(SortedIps(s)) <==> op.RemoveBypass? && op.ip in s
  {
    var ips := SortedIps(s);
    if (op.AddBypass? || op.RemoveBypass?) && op.ip in s {
      var i :| 0 <= i < |ips| && ips[i] == op.ip;
      assert Adds(ips)[i] == AddBypass(op.ip) && Removes(ips)[i] == RemoveBypass(op.ip);
    }
  }

  function MarkerOps(publish: Marker): seq<Op> {
    match publish
    case NoPublication => []
    case Publication(from, to) => [Publish(from, to)]
  }

  /** The plan from host access `h` to host access `g`: every allow, then every
      route addition, then the publish marker, then every deny, then every
      route removal, each group in key order. */
  ghost function Transition(h: Host, g: Host, publish: Marker): seq<Op> {
    Allows(SortedTuples(g.allowed - h.allowed)) +
    Adds(SortedIps(g.bypass - h.bypass)) +
    MarkerOps(publish) +
    Denies(SortedTuples(h.allowed - g.allowed)) +
    Removes(SortedIps(h.bypass - g.bypass))
  }

  /** Which operations a plan contains. */
  ghost predicate Contains(h: Host, g: Host, publish: Marker, op: Op) {
    match op
    case Allow(t) => t in g.allowed && t !in h.allowed
    case Deny(t) => t in h.allowed && t !in g.allowed
    case AddBypass(ip) => ip in g.bypass && ip !in h.bypass
    case RemoveBypass(ip) => ip in h.bypass && ip !in g.bypass
    case Publish(from, to) => publish == Publication(from, to)
  }

  lemma ConcatFive(a: seq<Op>, b: seq<Op>, c: seq<Op>, d: seq<Op>, e: seq<Op>, op: Op)
    ensures op in a + b + c + d + e <==> op in a || op in b || op in c || op in d || op in e
  {
  }

  lemma TransitionMember(h: Host, g: Host, publish: Marker, op: Op)
    ensures op in Transition(h, g, publish) <==> Contains(h, g, publish, op)
  {
    var a := Allows(SortedTuples(g.allowed - h.allowed));
    var b := Adds(SortedIps(g.bypass - h.bypass));
    var c := Denies(SortedTuples(h.allowed - g.allowed));
    var d := Removes(SortedIps(h.bypass - g.bypass));
    assert op in a <==> op.Allow? && Contains(h, g, publish, op) by { TupleGroups(g.allowed - h.allowed, op); }
    assert op in b <==> op.AddBypass? && Contains(h, g, publish, op) by { IpGroups(g.bypass - h.bypass, op); }
    assert op in c <==> op.Deny? && Contains(h, g, publish, op) by { TupleGroups(h.allowed - g.allowed, op); }
    assert op in d <==> op.RemoveBypass? && Contains(h, g, publish, op) by { IpGroups(h.bypass - g.bypass, op); }
    assert op in MarkerOps(publish) <==> op.Publish? && Contains(h, g, publish, op);
    ConcatFive(a, b, MarkerOps(publish), c, d, op);
  }

  // ----------------------------------------------------- the shape of a plan

  /** Position of the group an operation belongs to. */
  function Phase(op: Op): nat {
    match op
    case Allow(_) => 0
    case AddBypass(_) => 1
    case Publish(_, _) => 2
    case Deny(_) => 3
    case RemoveBypass(_) => 4
  }

  ghost predicate NoRepeat(ops: seq<Op>) {
    forall i, j :: 0 <= i < j < |ops| ==> ops[i] != ops[j]
  }

  ghost predicate OnePhase(ops: seq<Op>, p: nat) {
    NoRepeat(ops) && forall i :: 0 <= i < |ops| ==> Phase(ops[i]) == p
  }

  ghost predicate PhaseSorted(ops: seq<Op>) {
    forall i, j :: 0 <= i < j < |ops| ==> Phase(ops[i]) <= Phase(ops[j])
  }

  ghost predicate UpToPhase(ops: seq<Op>, p: nat) {
    PhaseSorted(ops) && NoRepeat(ops) && forall i :: 0 <= i < |ops| ==> Phase(ops[i]) <= p
  }

  /** `ops` holds exactly the operations that lead from `h` to `g` (and the
      given publish marker), once each and grouped in the safe order. */
  ghost predicate IsPlan(h: Host, g: Host, publish: Marker, ops: seq<Op>) {
    UpToPhase(ops, 4) &&
    forall op :: op in ops <==> Contains(h, g, publish, op)
  }

  lemma ConcatPhases(a: seq<Op>, b: seq<Op>, p: nat)
    requires UpToPhase(a, p) && OnePhase(b, p + 1)
    ensures UpToPhase(a + b, p + 1)
  {
    var c := a + b;
    forall i, j | 0 <= i < j < |c| ensures Phase(c[i]) <= Phase(c[j]) && c[i] != c[j] {
      if j >= |a| {
        assert c[j] == b[j - |a|];
        if i < |a| { assert c[i] == a[i]; } else { assert c[i] == b[i - |a|]; }
      }
    }
  }

  lemma ConcatAllPhases(a: seq<Op>, b: seq<Op>, c: seq<Op>, d: seq<Op>, e: seq<Op>)
    requires OnePhase(a, 0) && OnePhase(b, 1) && OnePhase(c, 2) && OnePhase(d, 3) && OnePhase(e, 4)
    ensures UpToPhase(a + b + c + d + e, 4)
  {
    ConcatPhases(a, b, 0);
    ConcatPhases(a + b, c, 1);
    ConcatPhases(a + b + c, d, 2);
    ConcatPhases(a + b + c + d, e, 3);
  }

  lemma TupleGroupPhases(s: set<Tuple>)
    ensures OnePhase(Allows(SortedTuples(s)), 0) && OnePhase(Denies(SortedTuples(s)), 3)
  {
    var ts := SortedTuples(s);
    forall i, j | 0 <= i < j < |ts| ensures ts[i] != ts[j] {
      assert TupleRank(ts[i]) < TupleRank(ts[j]);
    }
  }

  lemma IpGroupPhases(s: set<Ipv4>)
    ensures OnePhase(Adds(SortedIps(s)), 1) && OnePhase(Removes(SortedIps(s)), 4)
  {
    var ips := SortedIps(s);
    forall i, j | 0 <= i < j < |ips| ensures ips[i] != ips[j] {
      assert IpRank(ips[i]) < IpRank(ips[j]);
    }
  }

  lemma TransitionSorted(h: Host, g: Host, publish: Marker)
    ensures UpToPhase(Transition(h, g, publish), 4)
  {
    TupleGroupPhases(g.allowed - h.allowed);
    TupleGroupPhases(h.allowed - g.allowed);
    IpGroupPhases(g.bypass - h.bypass);
    IpGroupPhases(h.bypass - g.bypass);
    ConcatAllPhases(Allows(SortedTuples(g.allowed - h.allowed)), Adds(SortedIps(g.bypass - h.bypass)), MarkerOps(publish),
                    Denies(SortedTuples(h.allowed - g.allowed)), Removes(SortedIps(h.bypass - g.bypass)));
  }

  lemma TransitionIsPlan(h: Host, g: Host, publish: Marker)
    ensures IsPlan(h, g, publish, Transition(h, g, publish))
  {
    TransitionSorted(h, g, publish);
    forall op ensures op in Transition(h, g, publish) <==> Contains(h, g, publish, op) {
      TransitionMember(h, g, publish, op);
    }
  }

  // ------------------------------------------------------ what plans achieve

  /** Executing a whole plan turns the old access into exactly the new one. */
  lemma PlanReaches(h: Host, g: Host, publish: Marker, ops: seq<Op>)
    requires IsPlan(h, g, publish, ops)
    ensures Exec(h, ops) == g
  {
    forall t ensures t in Exec(h, ops).allowed <==> t in g.allowed { ExecAllowed(h, ops, t); }
    forall i ensures i in Exec(h, ops).bypass <==> i in g.bypass { ExecBypass(h, ops, i); }
    assert Exec(h, ops).allowed == g.allowed;
    assert Exec(h, ops).bypass == g.bypass;
  }

  /** At every prefix, access shared by the old and the new host is in place. */
  lemma PrefixKeeps(h: Host, g: Host, publish: Marker, ops: seq<Op>, n: nat)
    requires IsPlan(h, g, publish, ops) && n <= |ops|
    ensures h.allowed * g.allowed <= Exec(h, ops[..n]).allowed
    ensures h.bypass * g.bypass <= Exec(h, ops[..n]).bypass
  {
    assert forall op :: op in ops[..n] ==> op in ops;
    forall t | t in h.allowed && t in g.allowed ensures t in Exec(h, ops[..n]).allowed {
      ExecAllowed(h, ops[..n], t);
    }
    forall i | i in h.bypass && i in g.bypass ensures i in Exec(h, ops[..n]).bypass {
      ExecBypass(h, ops[..n], i);
    }
  }

  lemma BeforePublish(h: Host, g: Host, publish: Marker, ops: seq<Op>, p: nat, n: nat, op: Op)
    requires IsPlan(h, g, publish, ops)
    requires p < n <= |ops| && ops[p].Publish? && Phase(op) < 2
    ensures op in ops[..n] <==> Contains(h, g, publish, op)
  {
    if op in ops {
      var i :| 0 <= i < |ops| && ops[i] == op;
      assert i < p;
      assert ops[..n][i] == op;
    }
  }

  /** From the publish marker on, everything the new snapshot may dial is
      already allowed and routed, and stays so. */
  lemma AfterPublish(h: Host, g: Host, publish: Marker, ops: seq<Op>, p: nat, n: nat)
    requires IsPlan(h, g, publish, ops)
    requires p < n <= |ops| && ops[p].Publish?
    ensures g.allowed <= Exec(h, ops[..n]).allowed && g.bypass <= Exec(h, ops[..n]).bypass
  {
    assert forall op :: op in ops[..n] ==> op in ops;
    forall t | t in g.allowed ensures t in Exec(h, ops[..n]).allowed {
      BeforePublish(h, g, publish, ops, p, n, Allow(t));
      ExecAllowed(h, ops[..n], t);
    }
    forall x | x in g.bypass ensures x in Exec(h, ops[..n]).bypass {
      BeforePublish(h, g, publish, ops, p, n, AddBypass(x));
      ExecBypass(h, ops[..n], x);
    }
  }

  lemma PlanEffectiveAt(h: Host, g: Host, publish: Marker, ops: seq<Op>, i: nat)
    requires IsPlan(h, g, publish, ops) && i < |ops|
    ensures Effective(Exec(h, ops[..i]), ops[i])
  {
    var pre := ops[..i];
    assert ops[i] in ops && ops[i] !in pre;
    assert forall op :: op in pre ==> op in ops;
    match ops[i]
    case Allow(t) => ExecAllowed(h, pre, t);
    case Deny(t) => ExecAllowed(h, pre, t);
    case AddBypass(x) => ExecBypass(h, pre, x);
    case RemoveBypass(x) => ExecBypass(h, pre, x);
    case Publish(_, _) =>
  }

  /** Undoing any executed prefix of a plan restores the starting host exactly. */
  lemma UndoPrefix(h: Host, g: Host, publish: Marker, ops: seq<Op>, n: nat)
    requires IsPlan(h, g, publish, ops) && n <= |ops|
    ensures Exec(Exec(h, ops[..n]), Undo(ops[..n])) == h
  {
    forall i | 0 <= i < n ensures Effective(Exec(h, ops[..n][..i]), ops[..n][i]) {
      assert ops[..n][..i] == ops[..i];
      PlanEffectiveAt(h, g, publish, ops, i);
    }
    UndoRestores(h, ops[..n]);
  }
}
