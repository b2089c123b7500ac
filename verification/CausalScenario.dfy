/** Whole scenarios: acceptance, the report, and their independence of the order in
    which carriers, runs, windows and set-like lists are given. */
module CausalScenario {
  import opened Prelude
  import opened Ordered
  import opened Sorting
  import opened CausalReplay

  const REPLAY_SCHEMA_VERSION := 2

  datatype Carrier = Carrier(id: nat, regimes: seq<nat>, features: seq<nat>, domains: seq<nat>, active: seq<nat>, windows: seq<U32>, runs: seq<Run>)

  datatype Scenario = Scenario(
    version: nat, experiment: nat, artifact: nat, policyOk: bool, excludedDomains: seq<nat>, topologies: seq<nat>, carriers: seq<Carrier>)

  datatype CarrierReport = CarrierReport(
    id: nat, regimes: seq<nat>, features: seq<nat>, domains: seq<nat>, active: seq<nat>, tally: Tally, health: Health, estimate: nat)

  type Selector = (seq<nat>, seq<nat>, seq<CarrierReport>) -> nat

  datatype Report = Report(experiment: nat, artifact: nat, validated: nat, used: nat, excluded: nat, carriers: seq<CarrierReport>, selection: nat)

  // ------------------------------------------------------------------ order-free forms

  function NatRank(n: nat): int { n }
  function WindowOrder(w: U32): int { w }
  function WindowRank(r: Run): int { r.window }
  function RunIdRank(r: Run): int { r.trace.runId }
  function CarrierRank(c: Carrier): int { c.id }
  function ReportRank(r: CarrierReport): int { r.id }

  lemma SortedSetExists(xs: seq<nat>)
    ensures exists r: seq<nat> :: StrictlySorted(r, NatRank) && forall x :: x in r <==> x in xs
  {
    var all: set<nat> := set x | x in xs;
    var r: seq<nat> := Ascending<nat>(all, NatRank);
  }

  /** What `sort` followed by `dedup` leaves. */
  ghost function SortedSet(xs: seq<nat>): (r: seq<nat>)
    ensures StrictlySorted(r, NatRank) && forall x :: x in r <==> x in xs
  {
    SortedSetExists(xs);
    var r: seq<nat> :| StrictlySorted(r, NatRank) && forall x :: x in r <==> x in xs;
    r
  }

  // ------------------------------------------------------------------------ acceptance

  ghost predicate RunOk(s: Scenario, p: Params, r: Run) {
    r.window != 0 && p.validTrace(r.trace) && r.trace.client &&
    r.trace.experiment == Some(s.experiment) && r.trace.artifact == Some(s.artifact)
  }

  /** Windows are declared once and positive, and each has exactly one good run. */
  ghost predicate CarrierShape(s: Scenario, p: Params, c: Carrier) {
    && UniqueBy(c.windows, WindowOrder) && 0 !in c.windows
    && UniqueBy(c.runs, WindowRank) && UniqueBy(c.runs, RunIdRank)
    && (forall r :: r in c.runs ==> RunOk(s, p, r))
    && (forall w: U32 :: w in c.windows <==> exists r :: r in c.runs && r.window == w)
  }

  ghost predicate Countable(p: Params, c: Carrier)
    requires UniqueBy(c.runs, WindowRank)
  {
    var t := Tallied(InOrder(c.runs, WindowRank), p);
    t.Some? && p.estimate(t.value.successes, t.value.trials, t.value.samples).Some?
  }

  /** Two carriers of one scenario: same declared windows, no shared identifier. */
  ghost predicate Compatible(a: Carrier, b: Carrier) {
    a.id != b.id && SameElements(a.windows, b.windows) &&
    forall x, y :: x in a.runs && y in b.runs ==> x.trace.runId != y.trace.runId
  }

  ghost predicate Acceptable(s: Scenario, p: Params) {
    && s.version == REPLAY_SCHEMA_VERSION && s.policyOk
    && (forall c :: c in s.carriers ==> CarrierShape(s, p, c) && Countable(p, c))
    && (forall i, j :: 0 <= i < j < |s.carriers| ==> Compatible(s.carriers[i], s.carriers[j]))
  }

  // ---------------------------------------------------------------------------- report

  ghost function ReportOf(p: Params, c: Carrier): CarrierReport
    requires UniqueBy(c.runs, WindowRank) && Countable(p, c)
  {
    var t := Tallied(InOrder(c.runs, WindowRank), p).value;
    CarrierReport(c.id, SortedSet(c.regimes), SortedSet(c.features), SortedSet(c.domains), SortedSet(c.active),
                  t, HealthState(t, p), p.estimate(t.successes, t.trials, t.samples).value)
  }

  ghost predicate IsReport(s: Scenario, p: Params, rs: seq<CarrierReport>)
    requires Acceptable(s, p)
  {
    StrictlySorted(rs, ReportRank) && forall r :: r in rs <==> Derived(s, p, r)
  }

  /** `r` is the report of one of the carriers. */
  ghost predicate Derived(s: Scenario, p: Params, r: CarrierReport)
    requires Acceptable(s, p)
  {
    exists c :: c in s.carriers && r == ReportOf(p, c)
  }

  function RunCount(c: Carrier): nat { |c.runs| }
  function UsedRuns(r: CarrierReport): nat { UsedIn(r.tally.assessments) }
  function ExcludedRuns(r: CarrierReport): nat { |r.tally.assessments| - UsedIn(r.tally.assessments) }

  /** The validated runs are those of the scenario; the used and the excluded ones are
      read off the reports. */
  ghost predicate Reports(s: Scenario, p: Params, select: Selector, r: Report)
    requires Acceptable(s, p)
  {
    && r.experiment == s.experiment && r.artifact == s.artifact && IsReport(s, p, r.carriers)
    && r.validated == Sum(s.carriers, RunCount) && r.used == Sum(r.carriers, UsedRuns) && r.excluded == Sum(r.carriers, ExcludedRuns)
    && r.selection == select(SortedSet(s.excludedDomains), SortedSet(s.topologies), r.carriers)
  }

  // ------------------------------------------------------------------ order independence

  ghost predicate SameCarrier(a: Carrier, b: Carrier) {
    a.id == b.id && SameElements(a.regimes, b.regimes) && SameElements(a.features, b.features) && SameElements(a.domains, b.domains) &&
    SameElements(a.active, b.active) && multiset(a.windows) == multiset(b.windows) && multiset(a.runs) == multiset(b.runs)
  }

  /** `t` is `s` with carriers in another order, and inside them lists in another order. */
  ghost predicate Reordered(s: Scenario, t: Scenario, mid: seq<Carrier>) {
    && t.version == s.version && t.experiment == s.experiment && t.artifact == s.artifact && t.policyOk == s.policyOk
    && SameElements(s.excludedDomains, t.excludedDomains) && SameElements(s.topologies, t.topologies)
    && multiset(mid) == multiset(s.carriers) && |t.carriers| == |mid|
    && forall i :: 0 <= i < |mid| ==> SameCarrier(mid[i], t.carriers[i])
  }

  lemma SortedSetSame(a: seq<nat>, b: seq<nat>)
    requires SameElements(a, b)
    ensures SortedSet(a) == SortedSet(b)
  {
    SortedUnique(SortedSet(a), SortedSet(b), NatRank);
  }

  lemma ShapeKept(s: Scenario, t: Scenario, p: Params, a: Carrier, b: Carrier)
    requires s.experiment == t.experiment && s.artifact == t.artifact && SameCarrier(a, b) && CarrierShape(s, p, a)
    ensures CarrierShape(t, p, b)
  {
    UniqueReordered(a.windows, b.windows, WindowOrder);
    UniqueReordered(a.runs, b.runs, WindowRank);
    UniqueReordered(a.runs, b.runs, RunIdRank);
    ReorderedElements(a.windows, b.windows);
    ReorderedElements(a.runs, b.runs);
  }

  lemma ReportKept(p: Params, a: Carrier, b: Carrier)
    requires SameCarrier(a, b) && UniqueBy(a.runs, WindowRank) && UniqueBy(b.runs, WindowRank)
    ensures Countable(p, a) <==> Countable(p, b)
    ensures Countable(p, a) ==> ReportOf(p, a) == ReportOf(p, b)
  {
    ReorderedElements(a.runs, b.runs);
    InOrderSame(a.runs, b.runs, WindowRank);
    SortedSetSame(a.regimes, b.regimes);
    SortedSetSame(a.features, b.features);
    SortedSetSame(a.domains, b.domains);
    SortedSetSame(a.active, b.active);
  }

  lemma CompatibleKept(a: Carrier, b: Carrier, c: Carrier, d: Carrier)
    requires SameCarrier(a, c) && SameCarrier(b, d) && Compatible(a, b)
    ensures Compatible(c, d)
  {
    ReorderedElements(a.windows, c.windows);
    ReorderedElements(b.windows, d.windows);
    ReorderedElements(a.runs, c.runs);
    ReorderedElements(b.runs, d.runs);
  }

  ghost predicate PairwiseCompatible(cs: seq<Carrier>) {
    forall i, j :: 0 <= i < j < |cs| ==> Compatible(cs[i], cs[j])
  }

  /** Pairwise compatibility does not depend on the order of the carriers. */
  lemma PairwiseReordered(a: seq<Carrier>, b: seq<Carrier>)
    requires multiset(a) == multiset(b) && PairwiseCompatible(a)
    ensures PairwiseCompatible(b)
  {
    assert UniqueBy(a, CarrierRank);
    UniqueReordered(a, b, CarrierRank);
    ReorderedElements(a, b);
    forall i, j | 0 <= i < j < |b| ensures Compatible(b[i], b[j]) {
      assert b[i] in a && b[j] in a;
      var m :| 0 <= m < |a| && a[m] == b[i];
      var n :| 0 <= n < |a| && a[n] == b[j];
      assert CarrierRank(b[i]) != CarrierRank(b[j]);
      assert m < n || n < m;
      assert Compatible(a[m], a[n]) || Compatible(a[n], a[m]);
    }
  }

  lemma PairwiseSame(a: seq<Carrier>, b: seq<Carrier>)
    requires |a| == |b| && (forall i :: 0 <= i < |a| ==> SameCarrier(a[i], b[i])) && PairwiseCompatible(a)
    ensures PairwiseCompatible(b)
  {
    forall i, j | 0 <= i < j < |b| ensures Compatible(b[i], b[j]) {
      CompatibleKept(a[i], a[j], b[i], b[j]);
    }
  }

  lemma ShapesKept(s: Scenario, t: Scenario, a: seq<Carrier>, b: seq<Carrier>, p: Params)
    requires s.experiment == t.experiment && s.artifact == t.artifact && |a| == |b|
    requires forall i :: 0 <= i < |a| ==> SameCarrier(a[i], b[i])
    requires forall c :: c in a ==> CarrierShape(s, p, c) && Countable(p, c)
    ensures forall c :: c in b ==> CarrierShape(t, p, c) && Countable(p, c)
  {
    forall c | c in b ensures CarrierShape(t, p, c) && Countable(p, c) {
      var i :| 0 <= i < |b| && b[i] == c;
      assert a[i] in a;
      ShapeKept(s, t, p, a[i], c);
      ReportKept(p, a[i], c);
    }
  }

  /** A reordered scenario is accepted exactly when the original is. */
  lemma AcceptanceKept(s: Scenario, t: Scenario, mid: seq<Carrier>, p: Params)
    requires Reordered(s, t, mid)
    ensures Acceptable(s, p) <==> Acceptable(t, p)
  {
    ReorderedElements(mid, s.carriers);
    if Acceptable(s, p) {
      PairwiseReordered(s.carriers, mid);
      PairwiseSame(mid, t.carriers);
      ShapesKept(s, t, mid, t.carriers, p);
    }
    if Acceptable(t, p) {
      PairwiseSame(t.carriers, mid);
      PairwiseReordered(mid, s.carriers);
      ShapesKept(t, s, t.carriers, mid, p);
    }
  }

  lemma PositionKept(s: Scenario, t: Scenario, mid: seq<Carrier>, p: Params, i: nat)
    requires Reordered(s, t, mid) && Acceptable(s, p) && Acceptable(t, p) && i < |mid|
    ensures mid[i] in s.carriers && t.carriers[i] in t.carriers && ReportOf(p, mid[i]) == ReportOf(p, t.carriers[i])
  {
    ReorderedElements(mid, s.carriers);
    assert mid[i] in mid;
    assert t.carriers[i] in t.carriers;
    ReportKept(p, mid[i], t.carriers[i]);
  }

  lemma PositionOf(s: Scenario, mid: seq<Carrier>, c: Carrier) returns (i: nat)
    requires multiset(mid) == multiset(s.carriers) && c in s.carriers
    ensures i < |mid| && mid[i] == c
  {
    ReorderedElements(mid, s.carriers);
    i :| 0 <= i < |mid| && mid[i] == c;
  }

  lemma DerivedForward(s: Scenario, t: Scenario, mid: seq<Carrier>, p: Params, x: CarrierReport)
    requires Reordered(s, t, mid) && Acceptable(s, p) && Acceptable(t, p) && Derived(s, p, x)
    ensures Derived(t, p, x)
  {
    var c :| c in s.carriers && x == ReportOf(p, c);
    var i := PositionOf(s, mid, c);
    PositionKept(s, t, mid, p, i);
  }

  lemma DerivedBackward(s: Scenario, t: Scenario, mid: seq<Carrier>, p: Params, x: CarrierReport)
    requires Reordered(s, t, mid) && Acceptable(s, p) && Acceptable(t, p) && Derived(t, p, x)
    ensures Derived(s, p, x)
  {
    var c :| c in t.carriers && x == ReportOf(p, c);
    var i :| 0 <= i < |t.carriers| && t.carriers[i] == c;
    PositionKept(s, t, mid, p, i);
  }

  lemma RunTotalKept(s: Scenario, t: Scenario, mid: seq<Carrier>)
    requires Reordered(s, t, mid)
    ensures Sum(s.carriers, RunCount) == Sum(t.carriers, RunCount)
  {
    SumReordered(s.carriers, mid, RunCount);
    forall i | 0 <= i < |mid| ensures RunCount(mid[i]) == RunCount(t.carriers[i]) {
      assert |multiset(mid[i].runs)| == |mid[i].runs| && |multiset(t.carriers[i].runs)| == |t.carriers[i].runs|;
    }
    SumSame(mid, t.carriers, RunCount, RunCount);
  }

  /** The report of one is the report of the other. */
  lemma ReportKeptOverall(s: Scenario, t: Scenario, mid: seq<Carrier>, p: Params, select: Selector, r: Report)
    requires Reordered(s, t, mid) && Acceptable(s, p) && Acceptable(t, p) && Reports(s, p, select, r)
    ensures Reports(t, p, select, r)
  {
    SortedSetSame(s.excludedDomains, t.excludedDomains);
    SortedSetSame(s.topologies, t.topologies);
    RunTotalKept(s, t, mid);
    forall x | Derived(s, p, x) ensures Derived(t, p, x) { DerivedForward(s, t, mid, p, x); }
    forall x | Derived(t, p, x) ensures Derived(s, p, x) { DerivedBackward(s, t, mid, p, x); }
  }

  /** There is only one report. */
  lemma ReportUnique(s: Scenario, p: Params, select: Selector, a: Report, b: Report)
    requires Acceptable(s, p) && Reports(s, p, select, a) && Reports(s, p, select, b)
    ensures a == b
  {
    SortedUnique(a.carriers, b.carriers, ReportRank);
  }

  // ------------------------------------------------------------------------- accounting

  lemma InOrderWindows(runs: seq<Run>)
    requires UniqueBy(runs, WindowRank)
    ensures DistinctWindows(InOrder(runs, WindowRank))
  {
    var r := InOrder(runs, WindowRank);
    forall i, j | 0 <= i < j < |r| ensures r[i].window != r[j].window {
      assert WindowRank(r[i]) < WindowRank(r[j]);
    }
  }

  /** Per carrier: used and excluded runs make up all of them, and the number of
      probes is the number of independent windows. */
  lemma CarrierBalances(s: Scenario, p: Params, c: Carrier)
    requires CarrierShape(s, p, c) && Countable(p, c)
    ensures var t := ReportOf(p, c).tally;
            t.trials == UsedIn(t.assessments) && t.trials + t.excluded == |t.assessments| == |c.runs| && t.trials == |t.observed| && t.successes == |t.succeeded| && t.succeeded <= t.observed
  {
    InOrderWindows(c.runs);
    var ordered := InOrder(c.runs, WindowRank);
    TallyBalances(ordered, p);
    UniqueSame(c.runs, ordered, WindowRank);
    assert |multiset(c.runs)| == |multiset(ordered)|;
  }

  lemma {:induction false} SumsBalance(rs: seq<CarrierReport>)
    ensures Sum(rs, UsedRuns) + Sum(rs, ExcludedRuns) == Sum(rs, Assessed)
  {
    if rs != [] {
      SumsBalance(rs[..|rs| - 1]);
    }
  }

  function Assessed(r: CarrierReport): nat { |r.tally.assessments| }

  ghost predicate Reportable(p: Params, c: Carrier) { UniqueBy(c.runs, WindowRank) && Countable(p, c) }

  /** The reports of the carriers, in the order in which the carriers are given. */
  ghost function ReportsOf(p: Params, cs: seq<Carrier>): (rs: seq<CarrierReport>)
    requires forall c :: c in cs ==> Reportable(p, c)
    ensures |rs| == |cs| && forall i :: 0 <= i < |cs| ==> Reportable(p, cs[i]) && rs[i] == ReportOf(p, cs[i])
  {
    assert forall i :: 0 <= i < |cs| ==> Reportable(p, cs[i]);
    seq(|cs|, i requires 0 <= i < |cs| => ReportOf(p, cs[i]))
  }

  lemma GivenAt(p: Params, cs: seq<Carrier>, c: Carrier)
    requires (forall c :: c in cs ==> Reportable(p, c)) && c in cs
    ensures Reportable(p, c) && ReportOf(p, c) in ReportsOf(p, cs)
  {
    var i :| 0 <= i < |cs| && cs[i] == c;
    assert ReportsOf(p, cs)[i] == ReportOf(p, cs[i]);
  }

  lemma GivenFrom(p: Params, cs: seq<Carrier>, x: CarrierReport) returns (c: Carrier)
    requires (forall c :: c in cs ==> Reportable(p, c)) && x in ReportsOf(p, cs)
    ensures c in cs && Reportable(p, c) && x == ReportOf(p, c)
  {
    var i :| 0 <= i < |cs| && ReportsOf(p, cs)[i] == x;
    c := cs[i];
  }

  lemma GivenUnique(p: Params, cs: seq<Carrier>)
    requires (forall c :: c in cs ==> Reportable(p, c)) && UniqueBy(cs, CarrierRank)
    ensures UniqueBy(ReportsOf(p, cs), ReportRank)
  {
    var given := ReportsOf(p, cs);
    forall i, j | 0 <= i < j < |given| ensures ReportRank(given[i]) != ReportRank(given[j]) {
      assert CarrierRank(cs[i]) != CarrierRank(cs[j]);
    }
  }

  lemma SortedReports(p: Params, cs: seq<Carrier>, rs: seq<CarrierReport>)
    requires forall c :: c in cs ==> Reportable(p, c)
    requires UniqueBy(cs, CarrierRank) && StrictlySorted(rs, ReportRank)
    requires forall x :: x in rs <==> exists c :: c in cs && Reportable(p, c) && x == ReportOf(p, c)
    ensures multiset(rs) == multiset(ReportsOf(p, cs))
  {
    var given := ReportsOf(p, cs);
    forall x ensures x in rs <==> x in given {
      if x in rs {
        var c :| c in cs && Reportable(p, c) && x == ReportOf(p, c);
        GivenAt(p, cs, c);
      }
      if x in given { var c := GivenFrom(p, cs, x); }
    }
    GivenUnique(p, cs);
    UniqueSame(rs, given, ReportRank);
  }

  /** A report lists every carrier once. */
  lemma ReportsReordered(s: Scenario, p: Params, rs: seq<CarrierReport>)
    requires Acceptable(s, p) && IsReport(s, p, rs)
    ensures multiset(rs) == multiset(ReportsOf(p, s.carriers))
  {
    forall x ensures x in rs <==> exists c :: c in s.carriers && Reportable(p, c) && x == ReportOf(p, c) {
      assert x in rs <==> Derived(s, p, x);
    }
    SortedReports(p, s.carriers, rs);
  }

  /** The runs counted while the scenario is validated are those used and those
      excluded while the reports are derived. */
  lemma ReportBalances(s: Scenario, p: Params, select: Selector, r: Report)
    requires Acceptable(s, p) && Reports(s, p, select, r)
    ensures r.used + r.excluded == r.validated
  {
    var given := ReportsOf(p, s.carriers);
    forall i | 0 <= i < |given| ensures RunCount(s.carriers[i]) == Assessed(given[i]) {
      assert s.carriers[i] in s.carriers;
      CarrierBalances(s, p, s.carriers[i]);
    }
    SumSame(s.carriers, given, RunCount, Assessed);
    ReportsReordered(s, p, r.carriers);
    SumReordered(r.carriers, given, Assessed);
    SumsBalance(r.carriers);
  }

  /** Healthy means that every declared window has exactly one run, a successful one. */
  lemma HealthyCovers(s: Scenario, p: Params, c: Carrier, w: U32)
    requires CarrierShape(s, p, c) && Countable(p, c) && ReportOf(p, c).health == Healthy && w in c.windows
    ensures exists r :: r in c.runs && r.window == w && RunSucceeds(r, p)
    ensures forall a, b :: a in c.runs && b in c.runs && a.window == w && b.window == w ==> a == b
  {
    var ordered := InOrder(c.runs, WindowRank);
    InOrderWindows(c.runs);
    HealthyMeans(ordered, p);
    UniqueInjective(c.runs, WindowRank);
    assert forall a :: a in c.runs ==> a in Elements(c.runs);
    var r :| r in c.runs && r.window == w;
    assert r in ordered;
    var i :| 0 <= i < |ordered| && ordered[i] == r;
    forall a, b | a in c.runs && b in c.runs && a.window == w && b.window == w ensures a == b {
      assert WindowRank(a) == WindowRank(b);
    }
  }

  /** The windows in which a run succeeded. */
  ghost function Successes(c: Carrier, p: Params): set<U32> {
    set r | r in c.runs && RunSucceeds(r, p) :: r.window
  }

  lemma SuccessesInOrder(c: Carrier, p: Params)
    requires UniqueBy(c.runs, WindowRank)
    ensures WindowsOf(InOrder(c.runs, WindowRank), (run: Run) => RunSucceeds(run, p)) == Successes(c, p)
    ensures |InOrder(c.runs, WindowRank)| == |c.runs| && forall r :: r in InOrder(c.runs, WindowRank) <==> r in c.runs
  {
    var ordered := InOrder(c.runs, WindowRank);
    UniqueSame(c.runs, ordered, WindowRank);
    assert |multiset(c.runs)| == |multiset(ordered)|;
    forall r ensures r in ordered <==> r in c.runs { assert r in multiset(ordered) <==> r in multiset(c.runs); }
    var chosen := (run: Run) => RunSucceeds(run, p);
    forall w | w in Successes(c, p) ensures w in WindowsOf(ordered, chosen) {
      var r :| r in c.runs && RunSucceeds(r, p) && r.window == w;
      var i :| 0 <= i < |ordered| && ordered[i] == r;
    }
  }

  /** The verdict on a carrier, whatever the order of its runs. */
  lemma CarrierHealth(s: Scenario, p: Params, c: Carrier)
    requires CarrierShape(s, p, c) && Countable(p, c)
    ensures Verdict(ReportOf(p, c).health, AllUsed(c.runs, p), |Successes(c, p)|, |c.runs|, p)
  {
    var ordered := InOrder(c.runs, WindowRank);
    InOrderWindows(c.runs);
    HealthMeans(ordered, p);
    SuccessesCounted(ordered, p);
    SuccessesInOrder(c, p);
    assert AllUsed(ordered, p) == AllUsed(c.runs, p);
  }

  lemma SuccessesCounted(runs: seq<Run>, p: Params)
    requires DistinctWindows(runs) && Tallied(runs, p).Some?
    ensures SuccessCount(runs, p) == |WindowsOf(runs, (run: Run) => RunSucceeds(run, p))|
  {
    TallyCounts(runs, p);
    TallyBalances(runs, p);
    TallyWindows(runs, p);
  }

  /** A report keeps what its carrier declares, each list as a sorted set. */
  lemma ReportCarries(p: Params, c: Carrier, v: nat)
    requires UniqueBy(c.runs, WindowRank) && Countable(p, c)
    ensures var r := ReportOf(p, c);
            && r.id == c.id && (v in r.regimes <==> v in c.regimes) && (v in r.features <==> v in c.features)
            && (v in r.domains <==> v in c.domains) && (v in r.active <==> v in c.active)
            && StrictlySorted(r.regimes, NatRank) && StrictlySorted(r.features, NatRank) && StrictlySorted(r.domains, NatRank) &&
            StrictlySorted(r.active, NatRank)
  {
  }

  /** What acceptance gives for every run: a valid client trace of the expected experiment
      and artifact, in a declared window that no other run of its carrier covers. */
  lemma AcceptedRun(s: Scenario, p: Params, c: Carrier, r: Run)
    requires Acceptable(s, p) && c in s.carriers && r in c.runs
    ensures p.validTrace(r.trace) && r.trace.client && r.trace.experiment == Some(s.experiment) && r.trace.artifact == Some(s.artifact)
    ensures r.window > 0 && r.window in c.windows && forall x :: x in c.runs && x.window == r.window ==> x == r
  {
    assert CarrierShape(s, p, c);
    UniqueInjective(c.runs, WindowRank);
    forall x | x in c.runs && x.window == r.window ensures x == r {
      assert x in Elements(c.runs) && r in Elements(c.runs) && WindowRank(x) == WindowRank(r);
    }
  }

  /** And between carriers: one identifier each, the same windows, and no run in both. */
  lemma AcceptedCarriers(s: Scenario, p: Params, i: nat, j: nat)
    requires Acceptable(s, p) && i < |s.carriers| && j < |s.carriers| && i != j
    ensures s.carriers[i].id != s.carriers[j].id && (forall w :: w in s.carriers[i].windows <==> w in s.carriers[j].windows)
    ensures forall x, y :: x in s.carriers[i].runs && y in s.carriers[j].runs ==> x.trace.runId != y.trace.runId
  {
    if i < j { assert Compatible(s.carriers[i], s.carriers[j]); } else { assert Compatible(s.carriers[j], s.carriers[i]); }
  }
}
