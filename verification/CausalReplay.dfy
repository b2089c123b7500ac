/** Offline replay: classification of one measurement run, and the accounting of a
    carrier's runs. Trace validation and the floating-point estimates are
    parameters. */
module CausalReplay {
  import opened Prelude

  datatype Direction = Uplink | Downlink
  datatype EvidenceOutcome = PendingOutcome | Supported | Refuted | InconclusiveOutcome | InvalidOutcome
  datatype Scope = UnitScope | Loopback | VirtualMachine | ControlledNetwork | PublicInternet | TargetNetwork

  function ScopeRank(s: Scope): nat {
    match s
    case UnitScope => 0
    case Loopback => 1
    case VirtualMachine => 2
    case ControlledNetwork => 3
    case PublicInternet => 4
    case TargetNetwork => 5
  }

  datatype CloseOutcome = Clean | OtherClose(code: nat)

  datatype Kind =
    | Dial(connected: bool)
    | Transfer(direction: Direction, payload: U64)
    | Stall(path: nat, direction: Direction, detected: bool)
    | Close(outcome: CloseOutcome)
    | OtherEvent

  datatype Event = Event(elapsedUs: U64, kind: Kind)

  datatype Trace = Trace(
    runId: nat, client: bool, experiment: Option<nat>, artifact: Option<nat>, startedMs: U64,
    outcome: EvidenceOutcome, scope: Scope, events: seq<Event>)

  datatype Run = Run(window: U32, trace: Trace)

  datatype Exclusion = PendingEvidence | InconclusiveEvidence | ScopeBelowMinimum | MissingTerminalClose

  datatype Disposition =
    | Used(successful: bool, terminal: CloseOutcome, payload: U64, elapsedUs: U64, stalled: bool)
    | Excluded(reason: Exclusion)

  datatype Params = Params(
    direction: Direction, minimumScope: Scope, minimumPayload: U64,
    minProbes: U32, minSuccesses: U32, minWindows: U32,
    validTrace: Trace -> bool, estimate: (nat, nat, seq<(U64, U64)>) -> Option<nat>)

  // ------------------------------------------------------------------- one run

  /** Payload of the given direction, or `None` when the sum leaves 64 bits. */
  function Payload(events: seq<Event>, d: Direction): Option<U64> {
    if events == [] then Some(0)
    else
      var init, last := Payload(events[..|events| - 1], d), events[|events| - 1].kind;
      if init.None? || !last.Transfer? || last.direction != d then init
      else CheckedAdd64(init.value, last.payload)
  }

  /** The unbounded sum of the same transfers. */
  function PayloadSum(events: seq<Event>, d: Direction): nat {
    if events == [] then 0
    else
      PayloadSum(events[..|events| - 1], d) +
      (var last := events[|events| - 1].kind; if last.Transfer? && last.direction == d then last.payload else 0)
  }

  /** The checked sum fails exactly when the true sum does not fit. */
  lemma {:induction false} PayloadExact(events: seq<Event>, d: Direction)
    ensures Payload(events, d) == if PayloadSum(events, d) <= U64_MAX then Some(PayloadSum(events, d)) else None
  {
    if events != [] { PayloadExact(events[..|events| - 1], d); }
  }

  predicate StallOf(e: Event, path: nat, d: Direction) {
    e.kind.Stall? && e.kind.path == path && e.kind.direction == d
  }

  /** The last stall report of the path, in this direction, is an unrecovered one. */
  ghost predicate StallOpen(events: seq<Event>, path: nat, d: Direction) {
    exists i :: 0 <= i < |events| && StallOf(events[i], path, d) && events[i].kind.detected &&
                forall j :: i < j < |events| ==> !StallOf(events[j], path, d)
  }

  lemma StallOpenNext(events: seq<Event>, e: Event, path: nat, d: Direction)
    ensures StallOpen(events + [e], path, d) <==>
            if StallOf(e, path, d) then e.kind.detected else StallOpen(events, path, d)
  {
    var all := events + [e];
    if StallOf(e, path, d) {
      assert StallOf(all[|events|], path, d);
    } else {
      if StallOpen(events, path, d) {
        var i :| 0 <= i < |events| && StallOf(events[i], path, d) && events[i].kind.detected &&
                 forall j :: i < j < |events| ==> !StallOf(events[j], path, d);
        assert all[i] == events[i];
        forall j | i < j < |all| ensures !StallOf(all[j], path, d) {
          assert j < |events| ==> all[j] == events[j];
        }
      }
      if StallOpen(all, path, d) {
        var i :| 0 <= i < |all| && StallOf(all[i], path, d) && all[i].kind.detected &&
                 forall j :: i < j < |all| ==> !StallOf(all[j], path, d);
        assert i < |events| && all[i] == events[i];
        forall j | i < j < |events| ensures !StallOf(events[j], path, d) {
          assert all[j] == events[j];
        }
      }
    }
  }

  ghost predicate Stalled(events: seq<Event>, d: Direction) {
    exists path :: StallOpen(events, path, d)
  }

  /** `has_unresolved_stall`. */
  method HasUnresolvedStall(events: seq<Event>, d: Direction) returns (stalled: bool)
    ensures stalled <==> Stalled(events, d)
  {
    var paths: set<nat> := {};
    for i := 0 to |events|
      invariant forall path :: path in paths <==> StallOpen(events[..i], path, d)
    {
      var kind := events[i].kind;
      forall path ensures StallOpen(events[..i + 1], path, d) <==>
                          if StallOf(events[i], path, d) then kind.detected else StallOpen(events[..i], path, d) {
        assert events[..i + 1] == events[..i] + [events[i]];
        StallOpenNext(events[..i], events[i], path, d);
      }
      if kind.Stall? && kind.direction == d {
        if kind.detected { paths := paths + {kind.path}; } else { paths := paths - {kind.path}; }
      }
    }
    assert events[..|events|] == events;
    stalled := paths != {};
    if paths == {} {
      assert forall path :: !StallOpen(events, path, d);
    }
  }

  predicate Connected(events: seq<Event>) {
    exists i :: 0 <= i < |events| && events[i].kind == Dial(true)
  }

  ghost predicate Succeeds(t: Trace, p: Params, payload: U64) {
    t.events != [] && t.events[|t.events| - 1].kind == Close(Clean) && payload >= p.minimumPayload &&
    Connected(t.events) && !Stalled(t.events, p.direction)
  }

  /** `None` is a rejected run: marked invalid, or its payload does not fit. */
  ghost function Disposed(t: Trace, p: Params): Option<Disposition> {
    match t.outcome
    case InvalidOutcome => None
    case PendingOutcome => Some(Excluded(PendingEvidence))
    case InconclusiveOutcome => Some(Excluded(InconclusiveEvidence))
    case _ =>
      if ScopeRank(t.scope) < ScopeRank(p.minimumScope) then Some(Excluded(ScopeBelowMinimum))
      else if t.events == [] || !t.events[|t.events| - 1].kind.Close? then Some(Excluded(MissingTerminalClose))
      else
        match Payload(t.events, p.direction)
        case None => None
        case Some(payload) =>
          Some(Used(Succeeds(t, p, payload), t.events[|t.events| - 1].kind.outcome, payload,
                    t.events[|t.events| - 1].elapsedUs, Stalled(t.events, p.direction)))
  }

  /** `classify_run`. */
  method ClassifyRun(t: Trace, p: Params) returns (r: Option<Disposition>)
    ensures r == Disposed(t, p)
  {
    match t.outcome
    case InvalidOutcome => return None;
    case PendingOutcome => return Some(Excluded(PendingEvidence));
    case InconclusiveOutcome => return Some(Excluded(InconclusiveEvidence));
    case _ =>
      if ScopeRank(t.scope) < ScopeRank(p.minimumScope) { return Some(Excluded(ScopeBelowMinimum)); }
      if t.events == [] { return Some(Excluded(MissingTerminalClose)); }
      var last := t.events[|t.events| - 1];
      if !last.kind.Close? { return Some(Excluded(MissingTerminalClose)); }
      var payload := Payload(t.events, p.direction);
      if payload.None? { return None; }
      var stalled := HasUnresolvedStall(t.events, p.direction);
      var successful := last.kind.outcome.Clean? && payload.value >= p.minimumPayload && Connected(t.events) && !stalled;
      return Some(Used(successful, last.kind.outcome, payload.value, last.elapsedUs, stalled));
  }

  // --------------------------------------------------------------- accounting of runs

  datatype Assessment = Assessment(runId: nat, window: U32, disposition: Disposition)

  datatype Tally = Tally(
    trials: nat, successes: nat, excluded: nat, observed: set<U32>, succeeded: set<U32>,
    minimumWorkload: Option<U64>, lastObservation: Option<U64>, lastSuccess: Option<U64>,
    samples: seq<(U64, U64)>, assessments: seq<Assessment>)

  const NO_RUNS := Tally(0, 0, 0, {}, {}, None, None, None, [], [])

  function Later(a: Option<U64>, b: U64): Option<U64> { Some(if a.None? then b else Max(a.value, b)) }
  function Lower(a: Option<U64>, b: U64): Option<U64> { Some(if a.None? then b else Min(a.value, b)) }

  /** Milliseconds, rounded up. */
  function ElapsedMs(us: U64): nat { us / 1_000 + (if us % 1_000 != 0 then 1 else 0) }

  /** One more run; `None` when its observation time leaves 64 bits. */
  function Counted(t: Tally, run: Run, d: Disposition): Option<Tally> {
    var noted := t.(assessments := t.assessments + [Assessment(run.trace.runId, run.window, d)]);
    match d
    case Excluded(_) => Some(noted.(excluded := t.excluded + 1))
    case Used(successful, _, payload, elapsed, _) =>
      var at := CheckedAdd64(run.trace.startedMs, ElapsedMs(elapsed));
      if at.None? then None
      else
        var tried := noted.(trials := t.trials + 1, observed := t.observed + {run.window}, lastObservation := Later(t.lastObservation, at.value));
        if !successful then Some(tried)
        else Some(tried.(successes := t.successes + 1, succeeded := t.succeeded + {run.window},
                         lastSuccess := Later(t.lastSuccess, at.value), minimumWorkload := Lower(t.minimumWorkload, payload),
                         samples := if elapsed > 0 then t.samples + [(payload, elapsed)] else t.samples))
  }

  ghost function Tallied(runs: seq<Run>, p: Params): Option<Tally> {
    if runs == [] then Some(NO_RUNS)
    else
      var init, last := Tallied(runs[..|runs| - 1], p), runs[|runs| - 1];
      var d := Disposed(last.trace, p);
      if init.None? || d.None? then None else Counted(init.value, last, d.value)
  }

  method TallyRuns(runs: seq<Run>, p: Params) returns (r: Option<Tally>)
    ensures r == Tallied(runs, p)
  {
    var t := NO_RUNS;
    for i := 0 to |runs|
      invariant Tallied(runs[..i], p) == Some(t)
    {
      assert runs[..i + 1][..i] == runs[..i];
      var d := ClassifyRun(runs[i].trace, p);
      var next := if d.None? then None else Counted(t, runs[i], d.value);
      if next.None? {
        TallyStops(runs, i + 1, p);
        return None;
      }
      t := next.value;
    }
    assert runs[..|runs|] == runs;
    return Some(t);
  }

  lemma {:induction false} TallyStops(runs: seq<Run>, n: nat, p: Params)
    requires n <= |runs| && Tallied(runs[..n], p).None?
    ensures Tallied(runs, p).None?
    decreases |runs|
  {
    if n < |runs| {
      var init := runs[..|runs| - 1];
      assert init[..n] == runs[..n];
      TallyStops(init, n, p);
    } else {
      assert runs[..n] == runs;
    }
  }

  /** How many of the assessed runs were used. */
  function UsedIn(runs: seq<Assessment>): (n: nat)
    ensures n <= |runs|
  {
    if runs == [] then 0
    else UsedIn(runs[..|runs| - 1]) + if runs[|runs| - 1].disposition.Used? then 1 else 0
  }

  ghost predicate DistinctWindows(runs: seq<Run>) {
    forall i, j :: 0 <= i < j < |runs| ==> runs[i].window != runs[j].window
  }

  ghost function Windows(runs: seq<Run>): set<U32> {
    set i | 0 <= i < |runs| :: runs[i].window
  }

  ghost predicate Balanced(t: Tally, n: nat, windows: set<U32>) {
    t.trials + t.excluded == n == |t.assessments| && t.trials == UsedIn(t.assessments) && t.trials == |t.observed| && t.successes == |t.succeeded| &&
    t.succeeded <= t.observed <= windows && t.successes <= t.trials
  }

  lemma CountedBalances(t: Tally, run: Run, d: Disposition, n: nat, windows: set<U32>)
    requires Balanced(t, n, windows) && run.window !in windows && Counted(t, run, d).Some?
    ensures Balanced(Counted(t, run, d).value, n + 1, windows + {run.window})
  {
    assert run.window !in t.observed && run.window !in t.succeeded;
    var noted := t.assessments + [Assessment(run.trace.runId, run.window, d)];
    assert noted[..|noted| - 1] == t.assessments;
  }

  /** Every run is either used or excluded, every used run is one observed window,
      every success one successful window. */
  lemma {:induction false} TallyBalances(runs: seq<Run>, p: Params)
    requires DistinctWindows(runs) && Tallied(runs, p).Some?
    ensures Balanced(Tallied(runs, p).value, |runs|, Windows(runs))
  {
    if runs != [] {
      var init, last := runs[..|runs| - 1], runs[|runs| - 1];
      TallyBalances(init, p);
      assert last.window !in Windows(init);
      CountedBalances(Tallied(init, p).value, last, Disposed(last.trace, p).value, |init|, Windows(init));
      WindowsNext(runs);
    }
  }

  lemma WindowsNext(runs: seq<Run>)
    requires runs != []
    ensures Windows(runs) == Windows(runs[..|runs| - 1]) + {runs[|runs| - 1].window}
  {
    var init := runs[..|runs| - 1];
    forall w | w in Windows(runs) ensures w in Windows(init) || w == runs[|runs| - 1].window {
      var i :| 0 <= i < |runs| && runs[i].window == w;
      assert i < |init| ==> init[i].window == w;
    }
    forall w | w in Windows(init) ensures w in Windows(runs) {
      var i :| 0 <= i < |init| && init[i].window == w;
      assert runs[i].window == w;
    }
  }

  // ------------------------------------------------------------------------- health

  datatype Health = Unknown | Unreachable | Degraded | Healthy

  /** `health_state`. */
  function HealthState(t: Tally, p: Params): Health {
    if t.excluded > 0 || t.trials == 0 then Unknown
    else if t.successes == 0 && t.trials >= p.minProbes then Unreachable
    else if t.trials < p.minProbes || t.successes < p.minSuccesses || |t.observed| < p.minWindows || |t.succeeded| == 0 then Unknown
    else if t.successes == t.trials then Healthy
    else Degraded
  }

  ghost predicate RunSucceeds(run: Run, p: Params) {
    Disposed(run.trace, p).Some? && Disposed(run.trace, p).value.Used? && Disposed(run.trace, p).value.successful
  }

  /** A run succeeds exactly when its evidence is conclusive and in scope, its last event
      is a clean close, something was dialled, its transfers of the direction add up to at
      least the minimum without leaving 64 bits, and no stall of the direction is open. */
  lemma SuccessMeans(run: Run, p: Params)
    ensures RunSucceeds(run, p) <==>
            && !(run.trace.outcome in {InvalidOutcome, PendingOutcome, InconclusiveOutcome})
            && ScopeRank(p.minimumScope) <= ScopeRank(run.trace.scope)
            && run.trace.events != [] && run.trace.events[|run.trace.events| - 1].kind == Close(Clean)
            && (exists i :: 0 <= i < |run.trace.events| && run.trace.events[i].kind == Dial(true))
            && p.minimumPayload <= PayloadSum(run.trace.events, p.direction) <= U64_MAX
            && forall path :: !StallOpen(run.trace.events, path, p.direction)
  {
    PayloadExact(run.trace.events, p.direction);
  }

  lemma CountedSuccess(t: Tally, run: Run, d: Disposition)
    requires Counted(t, run, d).Some?
    ensures Counted(t, run, d).value.successes == t.successes + if d.Used? && d.successful then 1 else 0
  {
  }

  /** No run is excluded or fails exactly when successes reach the number of runs. */
  lemma {:induction false} AllSucceed(runs: seq<Run>, p: Params)
    requires Tallied(runs, p).Some?
    ensures Tallied(runs, p).value.successes <= |runs|
    ensures Tallied(runs, p).value.successes == |runs| <==> forall i :: 0 <= i < |runs| ==> RunSucceeds(runs[i], p)
  {
    if runs != [] {
      var init, last := runs[..|runs| - 1], runs[|runs| - 1];
      AllSucceed(init, p);
      CountedSuccess(Tallied(init, p).value, last, Disposed(last.trace, p).value);
      assert forall i :: 0 <= i < |init| ==> init[i] == runs[i];
      assert (forall i :: 0 <= i < |runs| ==> RunSucceeds(runs[i], p)) <==>
             (forall i :: 0 <= i < |init| ==> RunSucceeds(init[i], p)) && RunSucceeds(last, p);
    }
  }

  /** A carrier is healthy exactly when every declared window has its one run, all of
      them succeed, and there are enough. */
  lemma HealthyMeans(runs: seq<Run>, p: Params)
    requires DistinctWindows(runs) && Tallied(runs, p).Some?
    ensures HealthState(Tallied(runs, p).value, p) == Healthy <==>
            (forall i :: 0 <= i < |runs| ==> RunSucceeds(runs[i], p)) &&
            |runs| >= 1 && |runs| >= p.minProbes && |runs| >= p.minSuccesses && |runs| >= p.minWindows
  {
    TallyBalances(runs, p);
    AllSucceed(runs, p);
  }

  // ----------------------------------------------------------- what the tally stands for

  /** From the weakest evidence to the strongest. */
  const SCOPES: seq<Scope> := [UnitScope, Loopback, VirtualMachine, ControlledNetwork, PublicInternet, TargetNetwork]

  lemma ScopesRanked(s: Scope, i: nat)
    requires i < |SCOPES|
    ensures s == SCOPES[i] <==> ScopeRank(s) == i
  {
  }

  ghost predicate Conclusive(t: Trace) { t.outcome.Supported? || t.outcome.Refuted? }

  ghost predicate InScope(t: Trace, p: Params) { ScopeRank(p.minimumScope) <= ScopeRank(t.scope) }

  ghost predicate Closed(t: Trace) { t.events != [] && t.events[|t.events| - 1].kind.Close? }

  /** Which runs are rejected, which are left out and for what reason, and what is kept of
      the others. */
  lemma DisposedMeans(t: Trace, p: Params)
    ensures Disposed(t, p).None? <==>
            t.outcome.InvalidOutcome? || (Conclusive(t) && InScope(t, p) && Closed(t) && PayloadSum(t.events, p.direction) > U64_MAX)
    ensures Disposed(t, p) == Some(Excluded(PendingEvidence)) <==> t.outcome.PendingOutcome?
    ensures Disposed(t, p) == Some(Excluded(InconclusiveEvidence)) <==> t.outcome.InconclusiveOutcome?
    ensures Disposed(t, p) == Some(Excluded(ScopeBelowMinimum)) <==> Conclusive(t) && !InScope(t, p)
    ensures Disposed(t, p) == Some(Excluded(MissingTerminalClose)) <==> Conclusive(t) && InScope(t, p) && !Closed(t)
    ensures Conclusive(t) && InScope(t, p) && Closed(t) && PayloadSum(t.events, p.direction) <= U64_MAX ==>
              var last := t.events[|t.events| - 1];
              Disposed(t, p) == Some(Used(RunSucceeds(Run(0, t), p), last.kind.outcome, PayloadSum(t.events, p.direction), last.elapsedUs,
                                          Stalled(t.events, p.direction)))
  {
    PayloadExact(t.events, p.direction);
  }

  ghost predicate RunUsed(run: Run, p: Params) {
    Disposed(run.trace, p).Some? && Disposed(run.trace, p).value.Used?
  }

  /** When a used run was observed: its start, and its length in milliseconds rounded up. */
  ghost function ObservedAt(run: Run): nat
    requires Closed(run.trace)
  {
    run.trace.startedMs + (run.trace.events[|run.trace.events| - 1].elapsedUs + 999) / 1_000
  }

  lemma UsedClosed(run: Run, p: Params)
    requires RunUsed(run, p)
    ensures Closed(run.trace) && Disposed(run.trace, p).value.payload == PayloadSum(run.trace.events, p.direction)
    ensures run.trace.startedMs + ElapsedMs(Disposed(run.trace, p).value.elapsedUs) == ObservedAt(run)
  {
    DisposedMeans(run.trace, p);
  }

  ghost predicate RunCounts(run: Run, p: Params) {
    Disposed(run.trace, p).Some? && (RunUsed(run, p) ==> Closed(run.trace) && ObservedAt(run) <= U64_MAX)
  }

  /** A carrier's runs can be counted exactly when none is rejected and no observation
      time leaves 64 bits. */
  lemma {:induction false} TalliedIff(runs: seq<Run>, p: Params)
    ensures Tallied(runs, p).Some? <==> forall i :: 0 <= i < |runs| ==> RunCounts(runs[i], p)
  {
    if runs != [] {
      var init, last := runs[..|runs| - 1], runs[|runs| - 1];
      TalliedIff(init, p);
      if RunUsed(last, p) { UsedClosed(last, p); }
      assert forall i :: 0 <= i < |init| ==> init[i] == runs[i];
      assert (forall i :: 0 <= i < |runs| ==> RunCounts(runs[i], p)) <==> (forall i :: 0 <= i < |init| ==> RunCounts(init[i], p)) && RunCounts(last, p);
    }
  }

  /** How many of the runs were used, and how many succeeded. */
  ghost function UsedCount(runs: seq<Run>, p: Params): nat {
    if runs == [] then 0 else UsedCount(runs[..|runs| - 1], p) + if RunUsed(runs[|runs| - 1], p) then 1 else 0
  }

  ghost function SuccessCount(runs: seq<Run>, p: Params): nat {
    if runs == [] then 0 else SuccessCount(runs[..|runs| - 1], p) + if RunSucceeds(runs[|runs| - 1], p) then 1 else 0
  }

  /** Payload and duration of the successful runs that took any time, in order. */
  ghost function Samples(runs: seq<Run>, p: Params): seq<(U64, U64)> {
    if runs == [] then []
    else
      var init, last := Samples(runs[..|runs| - 1], p), runs[|runs| - 1];
      if RunSucceeds(last, p) && Disposed(last.trace, p).value.elapsedUs > 0
      then init + [(Disposed(last.trace, p).value.payload, Disposed(last.trace, p).value.elapsedUs)] else init
  }

  /** Every run is counted as used or excluded and as a success or not. */
  lemma {:induction false} TallyCounts(runs: seq<Run>, p: Params)
    requires Tallied(runs, p).Some?
    ensures var t := Tallied(runs, p).value;
            && t.trials == UsedCount(runs, p) && t.excluded == |runs| - UsedCount(runs, p) && t.successes == SuccessCount(runs, p)
            && t.samples == Samples(runs, p)
  {
    if runs != [] { TallyCounts(runs[..|runs| - 1], p); }
  }

  /** Every run is noted with its disposition, in order. */
  lemma {:induction false} TallyNotes(runs: seq<Run>, p: Params, i: nat)
    requires Tallied(runs, p).Some? && i < |runs|
    ensures |Tallied(runs, p).value.assessments| == |runs| && Disposed(runs[i].trace, p).Some?
    ensures Tallied(runs, p).value.assessments[i] == Assessment(runs[i].trace.runId, runs[i].window, Disposed(runs[i].trace, p).value)
    decreases |runs|
  {
    var init := runs[..|runs| - 1];
    if init != [] { TallyNotes(init, p, if i < |init| then i else 0); }
  }

  ghost function WindowsOf(runs: seq<Run>, chosen: Run -> bool): set<U32> {
    set i | 0 <= i < |runs| && chosen(runs[i]) :: runs[i].window
  }

  lemma WindowsOfNext(runs: seq<Run>, chosen: Run -> bool)
    requires runs != []
    ensures var last := runs[|runs| - 1];
            WindowsOf(runs, chosen) == WindowsOf(runs[..|runs| - 1], chosen) + if chosen(last) then {last.window} else {}
  {
    var init := runs[..|runs| - 1];
    forall w | w in WindowsOf(init, chosen) ensures w in WindowsOf(runs, chosen) {
      var i :| 0 <= i < |init| && chosen(init[i]) && init[i].window == w;
      assert runs[i] == init[i];
    }
    forall w | w in WindowsOf(runs, chosen) ensures w in WindowsOf(init, chosen) || (chosen(runs[|runs| - 1]) && w == runs[|runs| - 1].window) {
      var i :| 0 <= i < |runs| && chosen(runs[i]) && runs[i].window == w;
      assert i < |init| ==> runs[i] == init[i];
    }
  }

  /** The windows are those of the used and of the successful runs. */
  lemma {:induction false} TallyWindows(runs: seq<Run>, p: Params)
    requires Tallied(runs, p).Some?
    ensures Tallied(runs, p).value.observed == WindowsOf(runs, (run: Run) => RunUsed(run, p))
    ensures Tallied(runs, p).value.succeeded == WindowsOf(runs, (run: Run) => RunSucceeds(run, p))
  {
    if runs != [] {
      TallyWindows(runs[..|runs| - 1], p);
      WindowsOfNext(runs, (run: Run) => RunUsed(run, p));
      WindowsOfNext(runs, (run: Run) => RunSucceeds(run, p));
    }
  }

  /** `at` is the latest observation of the chosen runs, if there are any. */
  ghost predicate Latest(runs: seq<Run>, chosen: Run -> bool, at: Option<U64>)
    requires forall run :: run in runs && chosen(run) ==> Closed(run.trace)
  {
    && (at.None? <==> forall run :: run in runs ==> !chosen(run))
    && (at.Some? ==> (exists run :: run in runs && chosen(run) && ObservedAt(run) == at.value) &&
                     forall run :: run in runs && chosen(run) ==> ObservedAt(run) <= at.value)
  }

  /** The least payload of the successful runs, if there are any. */
  ghost predicate LeastPayload(runs: seq<Run>, p: Params, least: Option<U64>) {
    && (least.None? <==> forall run :: run in runs ==> !RunSucceeds(run, p))
    && (least.Some? ==> (exists run :: run in runs && RunSucceeds(run, p) && PayloadSum(run.trace.events, p.direction) == least.value) &&
                        forall run :: run in runs && RunSucceeds(run, p) ==> least.value <= PayloadSum(run.trace.events, p.direction))
  }

  lemma SplitLast(runs: seq<Run>)
    requires runs != []
    ensures forall run :: run in runs <==> run in runs[..|runs| - 1] || run == runs[|runs| - 1]
  {
    assert runs == runs[..|runs| - 1] + [runs[|runs| - 1]];
  }

  lemma LatestNext(runs: seq<Run>, chosen: Run -> bool, before: Option<U64>, at: U64)
    requires runs != [] && forall run :: run in runs && chosen(run) ==> Closed(run.trace)
    requires Latest(runs[..|runs| - 1], chosen, before)
    requires chosen(runs[|runs| - 1]) ==> ObservedAt(runs[|runs| - 1]) == at
    ensures Latest(runs, chosen, if chosen(runs[|runs| - 1]) then Later(before, at) else before)
  {
    SplitLast(runs);
    var last := runs[|runs| - 1];
    if chosen(last) && before.Some? && at <= before.value {
      var run :| run in runs[..|runs| - 1] && chosen(run) && ObservedAt(run) == before.value;
    }
  }

  lemma UsedAreClosed(runs: seq<Run>, p: Params)
    ensures forall run :: run in runs && RunUsed(run, p) ==> Closed(run.trace)
  {
    forall run | run in runs && RunUsed(run, p) ensures Closed(run.trace) { UsedClosed(run, p); }
  }

  /** The time of the last observation. */
  lemma {:induction false} TallyObserved(runs: seq<Run>, p: Params)
    requires Tallied(runs, p).Some?
    ensures forall run :: run in runs && RunUsed(run, p) ==> Closed(run.trace)
    ensures Latest(runs, (run: Run) => RunUsed(run, p), Tallied(runs, p).value.lastObservation)
  {
    UsedAreClosed(runs, p);
    if runs != [] {
      var last := runs[|runs| - 1];
      TallyObserved(runs[..|runs| - 1], p);
      if RunUsed(last, p) { UsedClosed(last, p); }
      LatestNext(runs, (run: Run) => RunUsed(run, p), Tallied(runs[..|runs| - 1], p).value.lastObservation, if RunUsed(last, p) then ObservedAt(last) else 0);
    }
  }

  /** The time of the last success. */
  lemma {:induction false} TallySucceeded(runs: seq<Run>, p: Params)
    requires Tallied(runs, p).Some?
    ensures forall run :: run in runs && RunUsed(run, p) ==> Closed(run.trace)
    ensures Latest(runs, (run: Run) => RunSucceeds(run, p), Tallied(runs, p).value.lastSuccess)
  {
    UsedAreClosed(runs, p);
    if runs != [] {
      var last := runs[|runs| - 1];
      TallySucceeded(runs[..|runs| - 1], p);
      if RunUsed(last, p) { UsedClosed(last, p); }
      LatestNext(runs, (run: Run) => RunSucceeds(run, p), Tallied(runs[..|runs| - 1], p).value.lastSuccess, if RunUsed(last, p) then ObservedAt(last) else 0);
    }
  }

  /** The least workload of a success. */
  lemma {:induction false} TallyWorkload(runs: seq<Run>, p: Params)
    requires Tallied(runs, p).Some?
    ensures LeastPayload(runs, p, Tallied(runs, p).value.minimumWorkload)
  {
    if runs != [] {
      var init, last := runs[..|runs| - 1], runs[|runs| - 1];
      TallyWorkload(init, p);
      SplitLast(runs);
      var before := Tallied(init, p).value.minimumWorkload;
      if RunSucceeds(last, p) {
        UsedClosed(last, p);
        if before.Some? && before.value < PayloadSum(last.trace.events, p.direction) {
          var run :| run in init && RunSucceeds(run, p) && PayloadSum(run.trace.events, p.direction) == before.value;
        }
      }
    }
  }

  lemma {:induction false} CountsBounded(runs: seq<Run>, p: Params)
    ensures SuccessCount(runs, p) <= UsedCount(runs, p) <= |runs|
    ensures UsedCount(runs, p) == |runs| <==> AllUsed(runs, p)
  {
    if runs != [] {
      CountsBounded(runs[..|runs| - 1], p);
      SplitLast(runs);
    }
  }

  /** The verdict on `total` runs of which `n` succeed, given whether all of them were used. */
  ghost predicate Verdict(health: Health, allUsed: bool, n: nat, total: nat, p: Params) {
    var enough := allUsed && total >= 1 && total >= p.minProbes;
    && (health == Unreachable <==> enough && n == 0)
    && (health == Degraded <==> enough && 0 < n < total && n >= p.minSuccesses && total >= p.minWindows)
    && (health == Healthy <==> enough && n == total && n >= p.minSuccesses && total >= p.minWindows)
  }

  ghost predicate AllUsed(runs: seq<Run>, p: Params) {
    forall r :: r in runs ==> RunUsed(r, p)
  }

  /** All four verdicts, by the number of runs that succeed. */
  lemma HealthMeans(runs: seq<Run>, p: Params)
    requires DistinctWindows(runs) && Tallied(runs, p).Some?
    ensures Verdict(HealthState(Tallied(runs, p).value, p), AllUsed(runs, p), SuccessCount(runs, p), |runs|, p)
  {
    TallyBalances(runs, p);
    TallyCounts(runs, p);
    CountsBounded(runs, p);
  }
}
