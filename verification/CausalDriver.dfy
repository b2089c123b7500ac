/** `replay` itself: canonical sorting in place, the validation loops, and the
    derivation of one report per carrier. */
module CausalDriver {
  import opened Prelude
  import opened Ordered
  import opened Sorting
  import opened CausalReplay
  import opened CausalScenario

  method SortDedup(xs: seq<nat>) returns (r: seq<nat>)
    ensures r == SortedSet(xs)
  {
    var all: set<nat> := set x | x in xs;
    r := Ascending<nat>(all, NatRank);
    SortedUnique(r, SortedSet(xs), NatRank);
  }

  lemma SortedSetElements(xs: seq<nat>)
    ensures SameElements(xs, SortedSet(xs))
  {
  }

  method SortCarrier(c: Carrier) returns (d: Carrier)
    ensures SameCarrier(c, d) && SortedBy(d.runs, WindowRank)
    ensures d.regimes == SortedSet(c.regimes) && d.features == SortedSet(c.features) && d.domains == SortedSet(c.domains) && d.active == SortedSet(c.active)
  {
    var regimes := SortDedup(c.regimes);
    var features := SortDedup(c.features);
    var domains := SortDedup(c.domains);
    var active := SortDedup(c.active);
    var windows := SortBy(c.windows, WindowOrder);
    var runs := SortBy(c.runs, WindowRank);
    d := Carrier(c.id, regimes, features, domains, active, windows, runs);
  }

  /** The canonical form of a scenario. */
  method Canonicalize(s: Scenario) returns (t: Scenario, ghost mid: seq<Carrier>)
    ensures Reordered(s, t, mid) && SortedBy(t.carriers, CarrierRank)
    ensures forall c :: c in t.carriers ==> SortedBy(c.runs, WindowRank)
    ensures t.excludedDomains == SortedSet(s.excludedDomains) && t.topologies == SortedSet(s.topologies)
  {
    var excluded := SortDedup(s.excludedDomains);
    var topologies := SortDedup(s.topologies);
    var carriers := SortBy(s.carriers, CarrierRank);
    mid := carriers;
    var sorted: seq<Carrier> := [];
    for i := 0 to |carriers|
      invariant |sorted| == i
      invariant forall k :: 0 <= k < i ==> SameCarrier(carriers[k], sorted[k]) && SortedBy(sorted[k].runs, WindowRank)
    {
      var c := SortCarrier(carriers[i]);
      sorted := sorted + [c];
    }
    t := s.(excludedDomains := excluded, topologies := topologies, carriers := sorted);
    assert forall k :: 0 <= k < |sorted| ==> CarrierRank(sorted[k]) == CarrierRank(carriers[k]);
  }

  // -------------------------------------------------------------------------- validation

  method CheckWindows(windows: seq<U32>) returns (ok: bool, declared: set<U32>)
    ensures ok <==> UniqueBy(windows, WindowOrder) && 0 !in windows
    ensures ok ==> forall w: U32 :: w in declared <==> w in windows
  {
    declared := {};
    for i := 0 to |windows|
      invariant UniqueBy(windows[..i], WindowOrder) && 0 !in windows[..i]
      invariant forall w: U32 :: w in declared <==> w in windows[..i]
    {
      assert windows[..i + 1] == windows[..i] + [windows[i]];
      UniqueNext(windows[..i], windows[i], WindowOrder);
      if UniqueBy(windows, WindowOrder) { UniquePrefix(windows, i + 1, WindowOrder); }
      if windows[i] == 0 || windows[i] in declared { return false, {}; }
      declared := declared + {windows[i]};
    }
    assert windows[..|windows|] == windows;
    ok := true;
  }

  ghost predicate RunsOk(s: Scenario, p: Params, runs: seq<Run>) {
    UniqueBy(runs, WindowRank) && UniqueBy(runs, RunIdRank) && forall r :: r in runs ==> RunOk(s, p, r)
  }

  ghost predicate FreshIds(runs: seq<Run>, taken: set<nat>) {
    forall r :: r in runs ==> r.trace.runId !in taken
  }

  method RunAcceptable(s: Scenario, p: Params, r: Run) returns (ok: bool)
    ensures ok <==> RunOk(s, p, r)
  {
    ok := r.window != 0 && p.validTrace(r.trace) && r.trace.client &&
          r.trace.experiment == Some(s.experiment) && r.trace.artifact == Some(s.artifact);
  }

  ghost predicate Holds(runs: seq<Run>, windows: set<U32>, ids: set<nat>) {
    (forall w: U32 :: w in windows <==> exists r :: r in runs && r.window == w) &&
    (forall id :: id in ids <==> exists r :: r in runs && r.trace.runId == id)
  }

  lemma HoldsNext(runs: seq<Run>, r: Run, windows: set<U32>, ids: set<nat>)
    requires Holds(runs, windows, ids)
    ensures Holds(runs + [r], windows + {r.window}, ids + {r.trace.runId})
  {
    assert r in runs + [r];
  }

  /** The loop over one carrier's runs. */
  method CheckRuns(s: Scenario, p: Params, runs: seq<Run>, taken: set<nat>) returns (ok: bool, windows: set<U32>, ids: set<nat>, counted: nat)
    ensures ok <==> RunsOk(s, p, runs) && FreshIds(runs, taken)
    ensures ok ==> Holds(runs, windows, ids) && counted == |runs|
  {
    windows, ids, counted := {}, {}, 0;
    for i := 0 to |runs|
      invariant RunsOk(s, p, runs[..i]) && FreshIds(runs[..i], taken) && Holds(runs[..i], windows, ids) && counted == i
    {
      var r := runs[i];
      assert runs[..i + 1] == runs[..i] + [r];
      UniqueNext(runs[..i], r, WindowRank);
      UniqueNext(runs[..i], r, RunIdRank);
      ghost var prefix := runs[..i + 1];
      if RunsOk(s, p, runs) {
        UniquePrefix(runs, i + 1, WindowRank);
        UniquePrefix(runs, i + 1, RunIdRank);
      }
      assert r in runs;
      var acceptable := RunAcceptable(s, p, r);
      if !acceptable || r.window in windows || r.trace.runId in ids || r.trace.runId in taken {
        return false, {}, {}, 0;
      }
      HoldsNext(runs[..i], r, windows, ids);
      windows, ids, counted := windows + {r.window}, ids + {r.trace.runId}, counted + 1;
    }
    assert runs[..|runs|] == runs;
    ok := true;
  }

  method CheckCarrier(s: Scenario, p: Params, c: Carrier, taken: set<nat>) returns (ok: bool, declared: set<U32>, ids: set<nat>, counted: nat)
    ensures ok <==> CarrierShape(s, p, c) && FreshIds(c.runs, taken)
    ensures ok ==> counted == RunCount(c)
    ensures ok ==> (forall w: U32 :: w in declared <==> w in c.windows) && forall id :: id in ids <==> exists r :: r in c.runs && r.trace.runId == id
  {
    ids, counted := {}, 0;
    ok, declared := CheckWindows(c.windows);
    if !ok { return; }
    var windows;
    ok, windows, ids, counted := CheckRuns(s, p, c.runs, taken);
    if !ok { return; }
    ok := windows == declared;
    if windows != declared {
      var w: U32 :| w in windows <==> w !in declared;
      assert !(w in c.windows <==> exists r :: r in c.runs && r.window == w);
    }
  }

  ghost predicate Shapes(s: Scenario, p: Params, cs: seq<Carrier>) {
    (forall c :: c in cs ==> CarrierShape(s, p, c)) && PairwiseCompatible(cs)
  }

  /** What is remembered of the carriers seen so far. */
  ghost predicate Remembers(cs: seq<Carrier>, carrierIds: set<nat>, runIds: set<nat>, cohort: Option<set<U32>>) {
    && (forall id :: id in carrierIds <==> exists c :: c in cs && c.id == id)
    && (forall id :: id in runIds <==> exists c, r :: c in cs && r in c.runs && r.trace.runId == id)
    && (cohort.None? <==> cs == [])
    && (cohort.Some? ==> forall c, w: U32 :: c in cs ==> (w in c.windows <==> w in cohort.value))
  }

  /** Whether one more carrier fits those before it. */
  lemma CompatibleNext(cs: seq<Carrier>, c: Carrier, carrierIds: set<nat>, runIds: set<nat>, cohort: Option<set<U32>>, declared: set<U32>)
    requires PairwiseCompatible(cs) && Remembers(cs, carrierIds, runIds, cohort) && forall w: U32 :: w in declared <==> w in c.windows
    ensures PairwiseCompatible(cs + [c]) <==>
            c.id !in carrierIds && FreshIds(c.runs, runIds) && (cohort.None? || cohort.value == declared)
  {
    var all := cs + [c];
    if PairwiseCompatible(all) {
      forall d | d in cs ensures Compatible(d, c) {
        var i :| 0 <= i < |cs| && cs[i] == d;
        assert all[i] == d && all[|cs|] == c;
        assert Compatible(all[i], all[|cs|]);
      }
      if cohort.Some? {
        assert cs[0] in cs;
        assert forall w: U32 :: w in cohort.value <==> w in declared;
      }
    }
    if c.id !in carrierIds && FreshIds(c.runs, runIds) && (cohort.None? || cohort.value == declared) {
      forall i, j | 0 <= i < j < |all| ensures Compatible(all[i], all[j]) {
        assert all[i] == cs[i] && cs[i] in cs;
        assert j < |cs| ==> all[j] == cs[j];
        if j == |cs| {
          assert forall w: U32 :: w in cs[i].windows <==> w in c.windows;
        }
      }
    }
  }

  lemma RemembersNext(cs: seq<Carrier>, c: Carrier, carrierIds: set<nat>, runIds: set<nat>, cohort: Option<set<U32>>, declared: set<U32>, ids: set<nat>)
    requires Remembers(cs, carrierIds, runIds, cohort) && (cohort.None? || cohort.value == declared)
    requires forall w: U32 :: w in declared <==> w in c.windows
    requires forall id :: id in ids <==> exists r :: r in c.runs && r.trace.runId == id
    ensures Remembers(cs + [c], carrierIds + {c.id}, runIds + ids, Some(declared))
  {
    var all := cs + [c];
    assert c in all && forall d :: d in all <==> d in cs || d == c;
    forall id ensures id in runIds + ids <==> exists d, r :: d in all && r in d.runs && r.trace.runId == id {
      if id in ids {
        var r :| r in c.runs && r.trace.runId == id;
        assert c in all;
      }
      if id in runIds {
        var d, r :| d in cs && r in d.runs && r.trace.runId == id;
        assert d in all;
      }
    }
  }

  lemma ShapesPrefix(s: Scenario, p: Params, cs: seq<Carrier>, n: nat)
    requires n <= |cs| && Shapes(s, p, cs)
    ensures Shapes(s, p, cs[..n])
  {
  }

  lemma ShapedFresh(s: Scenario, p: Params, cs: seq<Carrier>, i: nat, carrierIds: set<nat>, runIds: set<nat>, cohort: Option<set<U32>>)
    requires i < |cs| && Remembers(cs[..i], carrierIds, runIds, cohort) && Shapes(s, p, cs)
    ensures CarrierShape(s, p, cs[i]) && FreshIds(cs[i].runs, runIds)
  {
    assert cs[i] in cs;
    forall d | d in cs[..i] ensures Compatible(d, cs[i]) {
      var k :| 0 <= k < i && cs[..i][k] == d;
      assert cs[k] == d;
    }
  }

  /** One more carrier after those already accepted. */
  method CheckNext(s: Scenario, p: Params, ghost before: seq<Carrier>, c: Carrier, carrierIds: set<nat>, runIds: set<nat>, cohort: Option<set<U32>>)
    returns (ok: bool, declared: set<U32>, ids: set<nat>, counted: nat)
    requires Shapes(s, p, before) && Remembers(before, carrierIds, runIds, cohort)
    ensures ok <==> Shapes(s, p, before + [c])
    ensures ok ==> counted == RunCount(c) && Remembers(before + [c], carrierIds + {c.id}, runIds + ids, Some(declared))
  {
    ghost var all := before + [c];
    assert all[..|before|] == before && all[|before|] == c;
    if Shapes(s, p, all) { ShapedFresh(s, p, all, |before|, carrierIds, runIds, cohort); }
    ok, declared, ids, counted := CheckCarrier(s, p, c, runIds);
    if !ok { return; }
    CompatibleNext(before, c, carrierIds, runIds, cohort, declared);
    ok := c.id !in carrierIds && (cohort.None? || cohort.value == declared);
    if !ok { return; }
    RemembersNext(before, c, carrierIds, runIds, cohort, declared, ids);
  }

  /** The first `i` carriers are accepted, remembered and counted. */
  ghost predicate Checked(s: Scenario, p: Params, cs: seq<Carrier>, i: nat, carrierIds: set<nat>, runIds: set<nat>, cohort: Option<set<U32>>, validated: nat)
    requires i <= |cs|
  {
    Shapes(s, p, cs[..i]) && Remembers(cs[..i], carrierIds, runIds, cohort) && validated == Sum(cs[..i], RunCount)
  }

  /** The body of the validation loop. */
  method CheckAt(s: Scenario, p: Params, cs: seq<Carrier>, i: nat, carrierIds: set<nat>, runIds: set<nat>, cohort: Option<set<U32>>, validated: nat)
    returns (ok: bool, declared: set<U32>, ids: set<nat>, counted: nat)
    requires i < |cs| && Checked(s, p, cs, i, carrierIds, runIds, cohort, validated)
    ensures ok ==> Checked(s, p, cs, i + 1, carrierIds + {cs[i].id}, runIds + ids, Some(declared), validated + counted)
    ensures !ok ==> !Shapes(s, p, cs)
  {
    assert cs[..i + 1] == cs[..i] + [cs[i]];
    ok, declared, ids, counted := CheckNext(s, p, cs[..i], cs[i], carrierIds, runIds, cohort);
    SumNext(cs, i, RunCount);
    if Shapes(s, p, cs) { ShapesPrefix(s, p, cs, i + 1); }
  }

  /** The validation loops, which also count the runs they accept. */
  method CheckScenario(s: Scenario, p: Params) returns (ok: bool, validated: nat)
    ensures ok <==> Shapes(s, p, s.carriers)
    ensures ok ==> validated == Sum(s.carriers, RunCount)
  {
    validated := 0;
    var carrierIds: set<nat>, runIds: set<nat>, cohort: Option<set<U32>> := {}, {}, None;
    for i := 0 to |s.carriers|
      invariant Checked(s, p, s.carriers, i, carrierIds, runIds, cohort, validated)
    {
      var good, declared, ids, counted := CheckAt(s, p, s.carriers, i, carrierIds, runIds, cohort, validated);
      if !good { return false, 0; }
      carrierIds, runIds, cohort := carrierIds + {s.carriers[i].id}, runIds + ids, Some(declared);
      validated := validated + counted;
    }
    assert s.carriers[..|s.carriers|] == s.carriers;
    ok := true;
  }

  // -------------------------------------------------------------------------- derivation

  lemma SortedIsInOrder(runs: seq<Run>)
    requires SortedBy(runs, WindowRank) && UniqueBy(runs, WindowRank)
    ensures runs == InOrder(runs, WindowRank)
  {
    SortedUnique(runs, InOrder(runs, WindowRank), WindowRank);
  }

  /** `derive_carrier`. */
  method DeriveCarrier(c: Carrier, p: Params) returns (r: Option<CarrierReport>)
    requires SortedBy(c.runs, WindowRank) && UniqueBy(c.runs, WindowRank)
    ensures r.Some? <==> Countable(p, c)
    ensures r.Some? ==> r.value == ReportOf(p, c)
  {
    SortedIsInOrder(c.runs);
    var t := TallyRuns(c.runs, p);
    if t.None? { return None; }
    var estimate := p.estimate(t.value.successes, t.value.trials, t.value.samples);
    if estimate.None? { return None; }
    var regimes := SortDedup(c.regimes);
    var features := SortDedup(c.features);
    var domains := SortDedup(c.domains);
    var active := SortDedup(c.active);
    return Some(CarrierReport(c.id, regimes, features, domains, active, t.value, HealthState(t.value, p), estimate.value));
  }

  /** Each carrier has its report, in the same place. */
  ghost predicate Matches(p: Params, cs: seq<Carrier>, reports: seq<CarrierReport>) {
    |reports| == |cs| && forall k :: 0 <= k < |cs| ==> MatchesOne(p, cs[k], reports[k])
  }

  ghost predicate MatchesOne(p: Params, c: Carrier, r: CarrierReport) {
    UniqueBy(c.runs, WindowRank) && Countable(p, c) && r == ReportOf(p, c)
  }

  lemma MatchesNext(p: Params, cs: seq<Carrier>, i: nat, reports: seq<CarrierReport>, r: CarrierReport)
    requires i < |cs| && Matches(p, cs[..i], reports) && MatchesOne(p, cs[i], r)
    ensures Matches(p, cs[..i + 1], reports + [r])
  {
    var more := reports + [r];
    forall k | 0 <= k < i + 1 ensures MatchesOne(p, cs[..i + 1][k], more[k]) {
      if k < i { assert MatchesOne(p, cs[..i][k], reports[k]); }
    }
  }

  lemma MatchesCountable(p: Params, cs: seq<Carrier>, reports: seq<CarrierReport>, c: Carrier)
    requires Matches(p, cs, reports) && c in cs
    ensures UniqueBy(c.runs, WindowRank) && Countable(p, c)
  {
    var k :| 0 <= k < |cs| && cs[k] == c;
    assert MatchesOne(p, cs[k], reports[k]);
  }

  /** One report per carrier, in carrier order. */
  method DeriveEach(cs: seq<Carrier>, p: Params) returns (r: Option<seq<CarrierReport>>)
    requires forall c :: c in cs ==> SortedBy(c.runs, WindowRank) && UniqueBy(c.runs, WindowRank)
    ensures r.Some? <==> forall c :: c in cs ==> Countable(p, c)
    ensures r.Some? ==> Matches(p, cs, r.value)
  {
    var reports: seq<CarrierReport> := [];
    for i := 0 to |cs|
      invariant Matches(p, cs[..i], reports)
    {
      assert cs[i] in cs;
      var report := DeriveCarrier(cs[i], p);
      if report.None? { return None; }
      MatchesNext(p, cs, i, reports, report.value);
      reports := reports + [report.value];
    }
    assert cs[..|cs|] == cs;
    forall c | c in cs ensures Countable(p, c) { MatchesCountable(p, cs, reports, c); }
    return Some(reports);
  }

  method DeriveAll(s: Scenario, p: Params) returns (r: Option<seq<CarrierReport>>)
    requires Shapes(s, p, s.carriers) && SortedBy(s.carriers, CarrierRank) && forall c :: c in s.carriers ==> SortedBy(c.runs, WindowRank)
    requires s.version == REPLAY_SCHEMA_VERSION && s.policyOk
    ensures r.Some? <==> Acceptable(s, p)
    ensures r.Some? ==> IsReport(s, p, r.value)
  {
    r := DeriveEach(s.carriers, p);
    if r.Some? { ReportsAll(s, p, r.value); }
  }

  lemma ReportsSorted(s: Scenario, p: Params, reports: seq<CarrierReport>)
    requires Acceptable(s, p) && SortedBy(s.carriers, CarrierRank) && Matches(p, s.carriers, reports)
    ensures StrictlySorted(reports, ReportRank)
  {
    var cs := s.carriers;
    forall i, j | 0 <= i < j < |reports| ensures ReportRank(reports[i]) < ReportRank(reports[j]) {
      assert MatchesOne(p, cs[i], reports[i]) && MatchesOne(p, cs[j], reports[j]);
      assert Compatible(cs[i], cs[j]) && CarrierRank(cs[i]) <= CarrierRank(cs[j]);
    }
  }

  lemma ReportIsDerived(s: Scenario, p: Params, reports: seq<CarrierReport>, k: nat)
    requires Acceptable(s, p) && Matches(p, s.carriers, reports) && k < |reports|
    ensures Derived(s, p, reports[k])
  {
    assert MatchesOne(p, s.carriers[k], reports[k]) && s.carriers[k] in s.carriers;
  }

  lemma DerivedIsReport(p: Params, cs: seq<Carrier>, reports: seq<CarrierReport>, c: Carrier)
    requires Matches(p, cs, reports) && c in cs
    ensures UniqueBy(c.runs, WindowRank) && Countable(p, c) && ReportOf(p, c) in reports
  {
    var k :| 0 <= k < |cs| && cs[k] == c;
    assert MatchesOne(p, cs[k], reports[k]);
  }

  lemma ReportsAll(s: Scenario, p: Params, reports: seq<CarrierReport>)
    requires Acceptable(s, p) && SortedBy(s.carriers, CarrierRank) && Matches(p, s.carriers, reports)
    ensures IsReport(s, p, reports)
  {
    ReportsSorted(s, p, reports);
    forall x | x in reports ensures Derived(s, p, x) {
      var k :| 0 <= k < |reports| && reports[k] == x;
      ReportIsDerived(s, p, reports, k);
    }
    forall c | c in s.carriers ensures ReportOf(p, c) in reports { DerivedIsReport(p, s.carriers, reports, c); }
  }

  /** The loop over the assessments of one report. */
  method CountReport(r: CarrierReport) returns (used: nat, excluded: nat)
    ensures used == UsedRuns(r) && excluded == ExcludedRuns(r)
  {
    var runs := r.tally.assessments;
    used, excluded := 0, 0;
    for i := 0 to |runs|
      invariant used == UsedIn(runs[..i]) && excluded == i - used
    {
      assert runs[..i + 1][..i] == runs[..i];
      if runs[i].disposition.Used? { used := used + 1; } else { excluded := excluded + 1; }
    }
    assert runs[..|runs|] == runs;
  }

  method CountRuns(rs: seq<CarrierReport>) returns (used: nat, excluded: nat)
    ensures used == Sum(rs, UsedRuns) && excluded == Sum(rs, ExcludedRuns)
  {
    used, excluded := 0, 0;
    for i := 0 to |rs|
      invariant used == Sum(rs[..i], UsedRuns) && excluded == Sum(rs[..i], ExcludedRuns)
    {
      assert rs[..i + 1][..i] == rs[..i];
      var u, e := CountReport(rs[i]);
      used, excluded := used + u, excluded + e;
    }
    assert rs[..|rs|] == rs;
  }

  /** `replay`: accepts exactly the acceptable scenarios and gives their report. */
  method Replay(s: Scenario, p: Params, select: Selector) returns (r: Option<Report>)
    ensures r.Some? <==> Acceptable(s, p)
    ensures r.Some? ==> Reports(s, p, select, r.value)
  {
    if s.version != REPLAY_SCHEMA_VERSION || !s.policyOk { return None; }
    var t, mid := Canonicalize(s);
    AcceptanceKept(s, t, mid, p);
    var ok, validated := CheckScenario(t, p);
    if !ok { return None; }
    var reports := DeriveAll(t, p);
    if reports.None? { return None; }
    var used, excluded := CountRuns(reports.value);
    RunTotalKept(s, t, mid);
    SortedSetElements(s.excludedDomains);
    SortedSetElements(s.topologies);
    SortedSetSame(s.excludedDomains, t.excludedDomains);
    SortedSetSame(s.topologies, t.topologies);
    r := Some(Report(s.experiment, s.artifact, validated, used, excluded, reports.value,
                     select(t.excludedDomains, t.topologies, reports.value)));
    ReportBack(s, t, mid, p, select, r.value);
  }

  lemma ReportBack(s: Scenario, t: Scenario, mid: seq<Carrier>, p: Params, select: Selector, r: Report)
    requires Reordered(s, t, mid) && Acceptable(s, p) && Acceptable(t, p) && IsReport(t, p, r.carriers)
    ensures IsReport(s, p, r.carriers)
  {
    forall x | Derived(s, p, x) ensures Derived(t, p, x) { DerivedForward(s, t, mid, p, x); }
    forall x | Derived(t, p, x) ensures Derived(s, p, x) { DerivedBackward(s, t, mid, p, x); }
  }
}
