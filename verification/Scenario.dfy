/** The evidence of a scenario run, phase by phase (apps/run-supervisor/src/scenario-evidence.ts). */
module ScenarioEvidence {
  import opened Wrappers

  datatype Phase = Given | When | Then | Cleanup

  datatype Status = Passed | Failed | Skipped | Errored

  datatype StepResult = StepResult(phase: Phase, index: nat, status: Status, errorCode: Option<string>)

  datatype Counts = Counts(passed: nat, failed: nat, skipped: nat) {
    function Plus(other: Counts): Counts {
      Counts(passed + other.passed, failed + other.failed, skipped + other.skipped)
    }

    function Total(): nat {
      passed + failed + skipped
    }
  }

  predicate IsFailure(s: Status) {
    s == Failed || s == Errored
  }

  /** A failed and an errored step both count as failed. */
  function CountOf(s: Status): Counts {
    match s
    case Passed => Counts(1, 0, 0)
    case Skipped => Counts(0, 0, 1)
    case _ => Counts(0, 1, 0)
  }

  function CountAll(steps: seq<StepResult>): Counts {
    if steps == [] then Counts(0, 0, 0) else CountAll(steps[..|steps| - 1]).Plus(CountOf(steps[|steps| - 1].status))
  }

  lemma {:induction false} CountConcat(a: seq<StepResult>, b: seq<StepResult>)
    ensures CountAll(a + b) == CountAll(a).Plus(CountAll(b))
  {
    if b == [] {
      assert a + b == a;
    } else {
      assert (a + b)[..|a + b| - 1] == a + b[..|b| - 1];
      CountConcat(a, b[..|b| - 1]);
    }
  }

  lemma {:induction false} CountTotal(steps: seq<StepResult>)
    ensures CountAll(steps).Total() == |steps|
  {
    if steps != [] {
      CountTotal(steps[..|steps| - 1]);
    }
  }

  /** Where the steps are that ended in one of the given ways. */
  function Places(steps: seq<StepResult>, statuses: set<Status>): set<nat> {
    set i | 0 <= i < |steps| && steps[i].status in statuses
  }

  lemma PlacesOneMore(steps: seq<StepResult>, statuses: set<Status>)
    requires steps != []
    ensures var before, last := Places(steps[..|steps| - 1], statuses), |steps| - 1;
            |Places(steps, statuses)| == |before| + if steps[last].status in statuses then 1 else 0
  {
    var before, last := Places(steps[..|steps| - 1], statuses), |steps| - 1;
    assert last !in before;
    assert Places(steps, statuses) == before + if steps[last].status in statuses then {last} else {};
  }

  /** The counts are how many steps passed, how many failed or ended with an error, and how many were skipped. */
  lemma {:induction false} CountsAre(steps: seq<StepResult>)
    ensures CountAll(steps).passed == |Places(steps, {Passed})|
    ensures CountAll(steps).failed == |Places(steps, {Failed, Errored})|
    ensures CountAll(steps).skipped == |Places(steps, {Skipped})|
  {
    if steps == [] {
      assert Places(steps, {Passed}) == {};
      assert Places(steps, {Failed, Errored}) == {};
      assert Places(steps, {Skipped}) == {};
    } else {
      CountsAre(steps[..|steps| - 1]);
      PlacesOneMore(steps, {Passed});
      PlacesOneMore(steps, {Failed, Errored});
      PlacesOneMore(steps, {Skipped});
    }
  }

  datatype PhaseEvidence = PhaseEvidence(phase: Phase, steps: seq<StepResult>, counts: Counts)

  function EvidenceOf(phase: Phase, steps: seq<StepResult>): PhaseEvidence {
    PhaseEvidence(phase, steps, CountAll(steps))
  }

  /** The totals that are flushed: the sums over the completed phases. */
  function Totals(phases: seq<PhaseEvidence>): Counts {
    if phases == [] then Counts(0, 0, 0) else Totals(phases[..|phases| - 1]).Plus(phases[|phases| - 1].counts)
  }

  class Collector {
    var phases: seq<PhaseEvidence>
    var currentSteps: seq<StepResult>
    var started: bool

    constructor ()
      ensures phases == [] && currentSteps == [] && !started
    {
      phases, currentSteps, started := [], [], false;
    }

    /** Starting a phase drops the steps of one that was not completed. */
    method StartPhase()
      modifies this
      ensures phases == old(phases) && currentSteps == [] && started
    {
      started := true;
      currentSteps := [];
    }

    method AddStepResult(result: StepResult)
      modifies this`currentSteps
      ensures currentSteps == old(currentSteps) + [result]
    {
      currentSteps := currentSteps + [result];
    }

    method CompletePhase(phase: Phase)
      modifies this
      ensures old(started) ==> phases == old(phases) + [EvidenceOf(phase, old(currentSteps))] && currentSteps == []
      ensures !started
      ensures !old(started) ==> phases == old(phases) && currentSteps == old(currentSteps)
    {
      if !started {
        return;
      }
      var counts := Tally(currentSteps);
      phases := phases + [PhaseEvidence(phase, currentSteps, counts)];
      started := false;
      currentSteps := [];
    }

    method FlushTotals() returns (totals: Counts)
      ensures totals == Totals(phases)
    {
      totals := Counts(0, 0, 0);
      for i := 0 to |phases|
        invariant totals == Totals(phases[..i])
      {
        assert phases[..i + 1][..i] == phases[..i];
        totals := totals.Plus(phases[i].counts);
      }
      assert phases[..|phases|] == phases;
    }
  }

  method Tally(steps: seq<StepResult>) returns (counts: Counts)
    ensures counts == CountAll(steps)
  {
    counts := Counts(0, 0, 0);
    for i := 0 to |steps|
      invariant counts == CountAll(steps[..i])
    {
      assert steps[..i + 1][..i] == steps[..i];
      counts := counts.Plus(CountOf(steps[i].status));
    }
    assert steps[..|steps|] == steps;
  }
}

/** The phases of a scenario run (apps/run-supervisor/src/scenario-engine.ts). */
module Scenario {
  import opened Wrappers
  import opened ScenarioEvidence

  /** How a given, when or cleanup step would end if it is run. */
  datatype Outcome = Succeeds | Throws(code: Option<string>)

  /** How an assertion would end; one whose arguments are missing throws before it polls. */
  datatype Assertion = Holds | TimesOut | Malformed

  datatype RunStatus = Completed | RunFailed | RunTimedOut

  datatype Expectation = Expectation(status: RunStatus, errorCode: Option<string>)

  /** What parsing gives, and how everything the run may come to would end. */
  datatype Plan =
    | Unreadable(code: string)
    | Invalid
    | Valid(
        runtime: Outcome, given: seq<Outcome>, when_: seq<Outcome>, then_: seq<Assertion>, cleanup: seq<Outcome>,
        expected: Option<Expectation>)

  datatype RunResult = RunResult(status: RunStatus, counts: Counts, errorCode: Option<string>)

  // ----- What should be run and recorded

  function ResultOf(phase: Phase, index: nat, o: Outcome): StepResult {
    match o
    case Succeeds => StepResult(phase, index, Passed, None)
    case Throws(code) => StepResult(phase, index, Failed, code)
  }

  function AssertionResultOf(index: nat, a: Assertion): StepResult {
    StepResult(Then, index, if a.Holds? then Passed else Failed, None)
  }

  /** The results of the first `n` steps of a phase. */
  function Results(phase: Phase, os: seq<Outcome>, n: nat): seq<StepResult>
    requires n <= |os|
  {
    seq(n, i requires 0 <= i < n => ResultOf(phase, i, os[i]))
  }

  lemma ResultsGrow(phase: Phase, os: seq<Outcome>, n: nat)
    requires n < |os|
    ensures Results(phase, os, n + 1) == Results(phase, os, n) + [ResultOf(phase, n, os[n])]
  {
  }

  function AssertionResults(as_: seq<Assertion>, n: nat): seq<StepResult>
    requires n <= |as_|
  {
    seq(n, i requires 0 <= i < n => AssertionResultOf(i, as_[i]))
  }

  /** The first step that throws; the number of steps if none does. */
  function FirstThrow(os: seq<Outcome>): (n: nat)
    ensures n <= |os|
  {
    if os == [] || os[0].Throws? then 0 else 1 + FirstThrow(os[1..])
  }

  predicate AllSucceed(os: seq<Outcome>) {
    FirstThrow(os) == |os|
  }

  lemma {:induction false} FirstThrowIsFirst(os: seq<Outcome>)
    ensures forall i :: 0 <= i < FirstThrow(os) ==> os[i].Succeeds?
    ensures FirstThrow(os) < |os| ==> os[FirstThrow(os)].Throws?
  {
    if os != [] && os[0].Succeeds? {
      FirstThrowIsFirst(os[1..]);
      assert forall i :: 0 < i < FirstThrow(os) ==> os[i] == os[1..][i - 1];
    }
  }

  lemma {:induction false} FirstThrowIsThere(os: seq<Outcome>, n: nat)
    requires n <= |os| && (forall j :: 0 <= j < n ==> os[j].Succeeds?) && (n == |os| || os[n].Throws?)
    ensures FirstThrow(os) == n
  {
    if n > 0 {
      FirstThrowIsThere(os[1..], n - 1);
    }
  }

  /** The first assertion that cannot be evaluated at all; the number of assertions if there is none. */
  function FirstMalformed(as_: seq<Assertion>): (n: nat)
    ensures n <= |as_|
  {
    if as_ == [] || as_[0].Malformed? then 0 else 1 + FirstMalformed(as_[1..])
  }

  lemma {:induction false} FirstMalformedIsFirst(as_: seq<Assertion>)
    ensures forall i :: 0 <= i < FirstMalformed(as_) ==> !as_[i].Malformed?
    ensures FirstMalformed(as_) < |as_| ==> as_[FirstMalformed(as_)].Malformed?
  {
    if as_ != [] && !as_[0].Malformed? {
      FirstMalformedIsFirst(as_[1..]);
      assert forall i :: 0 < i < FirstMalformed(as_) ==> as_[i] == as_[1..][i - 1];
    }
  }

  /** The steps of a phase that stops at the first failure, the failed one included. */
  function Attempted(phase: Phase, os: seq<Outcome>): seq<StepResult> {
    Results(phase, os, if AllSucceed(os) then |os| else FirstThrow(os) + 1)
  }

  predicate StoppedAt(os: seq<Outcome>, n: nat, ok: bool)
    requires n <= |os|
  {
    if ok then n == |os| && forall j :: 0 <= j < n ==> os[j].Succeeds?
    else n > 0 && os[n - 1].Throws? && forall j :: 0 <= j < n - 1 ==> os[j].Succeeds?
  }

  lemma StoppedRight(phase: Phase, os: seq<Outcome>, n: nat, ok: bool)
    requires n <= |os| && StoppedAt(os, n, ok)
    ensures ok == AllSucceed(os) && Attempted(phase, os) == Results(phase, os, n)
  {
    FirstThrowIsThere(os, if ok then n else n - 1);
  }

  predicate ReachesGiven(p: Plan) {
    p.Valid? && p.runtime.Succeeds?
  }

  predicate ReachesWhen(p: Plan) {
    ReachesGiven(p) && AllSucceed(p.given)
  }

  predicate ReachesThen(p: Plan) {
    ReachesWhen(p) && AllSucceed(p.when_)
  }

  /** The run is cut off by an assertion without arguments. */
  predicate CutOff(p: Plan) {
    ReachesThen(p) && FirstMalformed(p.then_) < |p.then_|
  }

  function GivenSteps(p: Plan): seq<StepResult> {
    if ReachesGiven(p) then Attempted(Given, p.given) else []
  }

  function WhenSteps(p: Plan): seq<StepResult> {
    if ReachesWhen(p) then Attempted(When, p.when_) else []
  }

  function ThenSteps(p: Plan): seq<StepResult> {
    if ReachesThen(p) then AssertionResults(p.then_, FirstMalformed(p.then_)) else []
  }

  function CleanupSteps(p: Plan): seq<StepResult> {
    if p.Valid? then Results(Cleanup, p.cleanup, |p.cleanup|) else []
  }

  function StepsBeforeCleanup(p: Plan): seq<StepResult> {
    GivenSteps(p) + WhenSteps(p) + ThenSteps(p)
  }

  /** All steps in the order in which they run. */
  function Trace(p: Plan): seq<StepResult> {
    StepsBeforeCleanup(p) + CleanupSteps(p)
  }

  function PhasesBeforeCleanup(p: Plan): seq<PhaseEvidence> {
    (if ReachesGiven(p) then [EvidenceOf(Given, GivenSteps(p))] else [])
    + (if ReachesWhen(p) then [EvidenceOf(When, WhenSteps(p))] else [])
    + (if ReachesThen(p) && !CutOff(p) then [EvidenceOf(Then, ThenSteps(p))] else [])
  }

  function CleanupPhases(p: Plan): seq<PhaseEvidence> {
    if p.Valid? && p.cleanup != [] then [EvidenceOf(Cleanup, CleanupSteps(p))] else []
  }

  /** The phases the evidence has at the end. */
  function Phases(p: Plan): seq<PhaseEvidence> {
    PhasesBeforeCleanup(p) + CleanupPhases(p)
  }

  /** The run completes exactly when it gets to the assertions and all of them hold. */
  function RawStatus(p: Plan): RunStatus {
    if ReachesThen(p) && (forall i :: 0 <= i < |p.then_| ==> p.then_[i].Holds?) then Completed else RunFailed
  }

  function FirstFailure(steps: seq<StepResult>): Option<StepResult> {
    if steps == [] then None
    else if IsFailure(steps[0].status) then Some(steps[0])
    else FirstFailure(steps[1..])
  }

  function StepCode(steps: seq<StepResult>): Option<string> {
    match FirstFailure(steps) case Some(s) => s.errorCode case None => None
  }

  /** What an expectation makes of a raw status; only the codes of steps are looked at. */
  function Judge(raw: RunStatus, steps: seq<StepResult>, expected: Option<Expectation>): RunStatus {
    match expected
    case None => raw
    case Some(e) =>
      if raw == e.status && (e.errorCode.None? || StepCode(steps) == e.errorCode) then Completed else RunFailed
  }

  function ExpectationOf(p: Plan): Option<Expectation> {
    if p.Valid? then p.expected else None
  }

  function FinalStatus(p: Plan): RunStatus {
    Judge(RawStatus(p), Trace(p), ExpectationOf(p))
  }

  /** The code with which the engine itself gave up. */
  function EngineCode(p: Plan): Option<string> {
    match p
    case Unreadable(code) => Some(code)
    case Invalid => None
    case Valid(_, _, _, _, _, _) => if p.runtime.Throws? then p.runtime.code else None
  }

  function ReportedCode(p: Plan): Option<string> {
    if StepCode(Trace(p)).Some? then StepCode(Trace(p)) else EngineCode(p)
  }

  // ----- The run as the program does it

  class Engine {
    const collector: Collector
    var steps: seq<StepResult>
    var runErrorCode: Option<string>

    constructor (collector: Collector)
      ensures this.collector == collector && steps == [] && runErrorCode == None
    {
      this.collector := collector;
      steps, runErrorCode := [], None;
    }

    /** A given or when phase: its steps up to the first failure. */
    method RunSteps(phase: Phase, os: seq<Outcome>) returns (ok: bool)
      modifies this`steps, collector
      ensures ok == AllSucceed(os) && steps == old(steps) + Attempted(phase, os)
      ensures collector.phases == old(collector.phases) + [EvidenceOf(phase, Attempted(phase, os))]
    {
      collector.StartPhase();
      var n;
      n, ok := RunUntilFailure(phase, os);
      StoppedRight(phase, os, n, ok);
      collector.CompletePhase(phase);
    }

    method RunUntilFailure(phase: Phase, os: seq<Outcome>) returns (n: nat, ok: bool)
      requires collector.currentSteps == []
      modifies this`steps, collector`currentSteps
      ensures n <= |os| && StoppedAt(os, n, ok)
      ensures collector.currentSteps == Results(phase, os, n) && steps == old(steps) + Results(phase, os, n)
    {
      n := 0;
      while n < |os|
        invariant 0 <= n <= |os| && forall j :: 0 <= j < n ==> os[j].Succeeds?
        invariant collector.currentSteps == Results(phase, os, n) && steps == old(steps) + Results(phase, os, n)
      {
        ResultsGrow(phase, os, n);
        Record(ResultOf(phase, n, os[n]));
        n := n + 1;
        if os[n - 1].Throws? {
          return n, false;
        }
      }
      ok := true;
    }

    method Record(result: StepResult)
      modifies this`steps, collector`currentSteps
      ensures steps == old(steps) + [result] && collector.currentSteps == old(collector.currentSteps) + [result]
    {
      steps := steps + [result];
      collector.AddStepResult(result);
    }

    /** The loop over the assertions; `thrown` when one has no arguments. */
    method RunAssertions(as_: seq<Assertion>) returns (thrown: bool)
      modifies this`steps, collector
      ensures thrown == (FirstMalformed(as_) < |as_|)
      ensures steps == old(steps) + AssertionResults(as_, FirstMalformed(as_))
      ensures collector.phases == old(collector.phases)
              + if thrown then [] else [EvidenceOf(Then, AssertionResults(as_, FirstMalformed(as_)))]
    {
      collector.StartPhase();
      var i := 0;
      assert as_[0..] == as_;
      while i < |as_|
        invariant 0 <= i <= |as_| && FirstMalformed(as_) == i + FirstMalformed(as_[i..])
        invariant collector.started && collector.phases == old(collector.phases)
        invariant collector.currentSteps == AssertionResults(as_, i) && steps == old(steps) + AssertionResults(as_, i)
      {
        assert as_[i..][1..] == as_[i + 1..];
        if as_[i].Malformed? {
          return true;
        }
        assert AssertionResults(as_, i + 1) == AssertionResults(as_, i) + [AssertionResultOf(i, as_[i])];
        Record(AssertionResultOf(i, as_[i]));
        i := i + 1;
      }
      collector.CompletePhase(Then);
      return false;
    }

    /** Runs every cleanup step, whatever becomes of the others. */
    method RunCleanup(os: seq<Outcome>)
      modifies this`steps, collector
      ensures steps == old(steps) + Results(Cleanup, os, |os|)
      ensures collector.phases == old(collector.phases)
              + if os == [] then [] else [EvidenceOf(Cleanup, Results(Cleanup, os, |os|))]
    {
      if os == [] {
        return;
      }
      collector.StartPhase();
      for i := 0 to |os|
        invariant collector.started && collector.phases == old(collector.phases)
        invariant collector.currentSteps == Results(Cleanup, os, i) && steps == old(steps) + Results(Cleanup, os, i)
      {
        ResultsGrow(Cleanup, os, i);
        Record(ResultOf(Cleanup, i, os[i]));
      }
      collector.CompletePhase(Cleanup);
    }

    /** The phases up to the assertions; false when one of them ends the run. */
    method RunUntilCleanup(p: Plan) returns (failed: bool, thrown: bool)
      requires ReachesGiven(p) && steps == [] && collector.phases == []
      modifies this`steps, collector
      ensures steps == StepsBeforeCleanup(p) && collector.phases == PhasesBeforeCleanup(p)
      ensures failed == !ReachesThen(p) && thrown == CutOff(p)
    {
      var ok := RunSteps(Given, p.given);
      if !ok {
        return true, false;
      }
      ok := RunSteps(When, p.when_);
      if !ok {
        return true, false;
      }
      thrown := RunAssertions(p.then_);
      failed := false;
    }

    /** The whole run: phases, cleanup on every way out, and the result. */
    method Run(p: Plan) returns (r: RunResult)
      requires steps == [] && collector.phases == [] && runErrorCode == None
      modifies this, collector
      ensures steps == Trace(p) && collector.phases == Phases(p)
      ensures r == RunResult(FinalStatus(p), CountAll(Trace(p)), ReportedCode(p))
    {
      match p
      case Unreadable(code) =>
        runErrorCode := Some(code);
        r := Finalize(RunFailed, None);
      case Invalid =>
        r := Finalize(RunFailed, None);
      case Valid(runtime, given, when_, then_, cleanup, expected) =>
        var raw := RunValid(p);
        r := Finalize(raw, expected);
    }

    /** The run of a scenario that parsed, up to its raw status. */
    method RunValid(p: Plan) returns (raw: RunStatus)
      requires p.Valid? && steps == [] && collector.phases == [] && runErrorCode == None
      modifies this, collector
      ensures steps == Trace(p) && collector.phases == Phases(p) && raw == RawStatus(p) && runErrorCode == EngineCode(p)
    {
      RawStatusOfBrokenRun(p);
      var failed, thrown := false, true;
      if p.runtime.Throws? {
        runErrorCode := p.runtime.code;
      } else {
        failed, thrown := RunUntilCleanup(p);
      }
      RunCleanup(p.cleanup);
      if !failed && !thrown {
        StepsTellTheStatus(p);
        failed := AnyFailureBeforeCleanup();
      }
      raw := if failed || thrown then RunFailed else Completed;
    }

    method AnyFailureBeforeCleanup() returns (found: bool)
      ensures found == FailedBeforeCleanup(steps)
    {
      for i := 0 to |steps|
        invariant !FailedBeforeCleanup(steps[..i])
      {
        if steps[i].phase != Cleanup && IsFailure(steps[i].status) {
          return true;
        }
      }
      assert steps[..|steps|] == steps;
      return false;
    }

    /** The result: the status after the expectation, the counts, and the first code there is. */
    method Finalize(raw: RunStatus, expected: Option<Expectation>) returns (r: RunResult)
      ensures r.status == Judge(raw, steps, expected) && r.counts == CountAll(steps)
      ensures r.errorCode == if StepCode(steps).Some? then StepCode(steps) else runErrorCode
    {
      var counts := Tally(steps);
      var code := StepCode(steps);
      r := RunResult(Judge(raw, steps, expected), counts, if code.Some? then code else runErrorCode);
    }
  }

  predicate FailedBeforeCleanup(steps: seq<StepResult>) {
    exists i :: 0 <= i < |steps| && steps[i].phase != Cleanup && IsFailure(steps[i].status)
  }

  lemma RawStatusOfBrokenRun(p: Plan)
    ensures !ReachesThen(p) || CutOff(p) ==> RawStatus(p) == RunFailed
  {
    if CutOff(p) {
      FirstMalformedIsFirst(p.then_);
    }
  }

  /** Once every assertion has been evaluated, the recorded steps tell the status. */
  lemma StepsTellTheStatus(p: Plan)
    requires ReachesThen(p) && !CutOff(p)
    ensures FailedBeforeCleanup(Trace(p)) <==> RawStatus(p) == RunFailed
  {
    FailedInOneOf(StepsBeforeCleanup(p), CleanupSteps(p));
    FailedInOneOf(GivenSteps(p) + WhenSteps(p), ThenSteps(p));
    FailedInOneOf(GivenSteps(p), WhenSteps(p));
    AllPassed(Given, p.given);
    AllPassed(When, p.when_);
    AssertionsTell(p.then_);
  }

  lemma AllPassed(phase: Phase, os: seq<Outcome>)
    requires AllSucceed(os)
    ensures |Attempted(phase, os)| == |os| && forall i :: 0 <= i < |os| ==> Attempted(phase, os)[i].status == Passed
    ensures !FailedBeforeCleanup(Attempted(phase, os))
  {
    FirstThrowIsFirst(os);
  }

  lemma AssertionsTell(as_: seq<Assertion>)
    ensures FailedBeforeCleanup(AssertionResults(as_, |as_|)) <==> exists i :: 0 <= i < |as_| && !as_[i].Holds?
  {
    if i :| 0 <= i < |as_| && !as_[i].Holds? {
      assert AssertionResults(as_, |as_|)[i] == AssertionResultOf(i, as_[i]);
    }
  }

  lemma FailedInOneOf(a: seq<StepResult>, b: seq<StepResult>)
    ensures FailedBeforeCleanup(a + b) <==> FailedBeforeCleanup(a) || FailedBeforeCleanup(b)
  {
    if i :| 0 <= i < |a| && a[i].phase != Cleanup && IsFailure(a[i].status) {
      assert (a + b)[i] == a[i];
    }
    if i :| 0 <= i < |b| && b[i].phase != Cleanup && IsFailure(b[i].status) {
      assert (a + b)[|a| + i] == b[i];
    }
  }

  // ----- What is run and recorded, step by step

  /** The recorded results are those of the first steps, each with its own place, status and code. */
  ghost predicate Records(phase: Phase, os: seq<Outcome>, results: seq<StepResult>) {
    && |results| <= |os|
    && forall i :: 0 <= i < |results| ==>
         results[i] == match os[i]
                       case Succeeds => StepResult(phase, i, Passed, None)
                       case Throws(code) => StepResult(phase, i, Failed, code)
  }

  /** All steps up to the first that throws, that one included. */
  ghost predicate StopsAtFirstThrow(os: seq<Outcome>, n: nat)
    requires n <= |os|
  {
    && (forall i :: 0 <= i < n - 1 ==> os[i].Succeeds?)
    && (n < |os| ==> n > 0 && os[n - 1].Throws?)
  }

  lemma AttemptedIs(phase: Phase, os: seq<Outcome>)
    ensures Records(phase, os, Attempted(phase, os)) && StopsAtFirstThrow(os, |Attempted(phase, os)|)
  {
    FirstThrowIsFirst(os);
  }

  ghost predicate NoneThrows(os: seq<Outcome>) {
    forall i :: 0 <= i < |os| ==> os[i].Succeeds?
  }

  /** The assertions up to the first without arguments, each with its own place and status. */
  ghost predicate RecordsAssertions(as_: seq<Assertion>, results: seq<StepResult>) {
    && |results| <= |as_|
    && (forall i :: 0 <= i < |results| ==>
          as_[i] != Malformed && results[i] == StepResult(Then, i, if as_[i] == Holds then Passed else Failed, None))
    && (|results| < |as_| ==> as_[|results|] == Malformed)
  }

  /**
   * The steps of a run are given, when, then and cleanup steps, in this order. Given steps are run if the
   * scenario is valid and the runtime is there, when steps if moreover no given step threw, assertions if no
   * when step did either, and cleanup steps if the scenario is valid.
   */
  lemma TraceIs(p: Plan) returns (g: seq<StepResult>, w: seq<StepResult>, t: seq<StepResult>, c: seq<StepResult>)
    ensures Trace(p) == g + w + t + c
    ensures !p.Valid? ==> g == w == t == c == []
    ensures p.Valid? ==>
              && Records(Cleanup, p.cleanup, c) && |c| == |p.cleanup|
              && (p.runtime.Throws? ==> g == w == t == [])
    ensures p.Valid? && p.runtime.Succeeds? ==>
              && Records(Given, p.given, g) && StopsAtFirstThrow(p.given, |g|)
              && (!NoneThrows(p.given) ==> w == t == [])
              && (NoneThrows(p.given) ==> Records(When, p.when_, w) && StopsAtFirstThrow(p.when_, |w|))
              && (NoneThrows(p.given) && !NoneThrows(p.when_) ==> t == [])
              && (NoneThrows(p.given) && NoneThrows(p.when_) ==> RecordsAssertions(p.then_, t))
  {
    g, w, t, c := GivenSteps(p), WhenSteps(p), ThenSteps(p), CleanupSteps(p);
    if p.Valid? {
      AttemptedIs(Given, p.given);
      AttemptedIs(When, p.when_);
      FirstThrowIsFirst(p.given);
      FirstThrowIsFirst(p.when_);
      FirstMalformedIsFirst(p.then_);
    }
  }

  /** The evidence of a phase has the steps of that phase and their counts. */
  predicate IsEvidence(p: Plan, e: PhaseEvidence) {
    && e.counts == CountAll(e.steps)
    && e.steps == match e.phase
                  case Given => GivenSteps(p)
                  case When => WhenSteps(p)
                  case Then => ThenSteps(p)
                  case Cleanup => CleanupSteps(p)
  }

  /** Evidence of phases before the `n`-th, in order, all as it should be. */
  ghost predicate AreEvidence(good: PhaseEvidence -> bool, phases: seq<PhaseEvidence>, n: nat) {
    && (forall i :: 0 <= i < |phases| ==> good(phases[i]) && Ordinal(phases[i].phase) < n)
    && (forall i, j :: 0 <= i < j < |phases| ==> Ordinal(phases[i].phase) < Ordinal(phases[j].phase))
  }

  lemma AddEvidence(good: PhaseEvidence -> bool, phases: seq<PhaseEvidence>, recorded: bool, e: PhaseEvidence)
    requires AreEvidence(good, phases, Ordinal(e.phase)) && good(e)
    ensures AreEvidence(good, phases + Recorded(recorded, e), Ordinal(e.phase) + 1)
  {
  }

  function Recorded(recorded: bool, e: PhaseEvidence): seq<PhaseEvidence> {
    if recorded then [e] else []
  }

  /** The evidence has each completed phase with its own steps and their counts, in order. */
  lemma PhasesAre(p: Plan)
    ensures AreEvidence((e: PhaseEvidence) => IsEvidence(p, e), Phases(p), 4)
  {
    var good := (e: PhaseEvidence) => IsEvidence(p, e);
    var g, w := EvidenceOf(Given, GivenSteps(p)), EvidenceOf(When, WhenSteps(p));
    var t, c := EvidenceOf(Then, ThenSteps(p)), EvidenceOf(Cleanup, CleanupSteps(p));
    AddFour(good, g, w, t, c, ReachesGiven(p), ReachesWhen(p), ReachesThen(p) && !CutOff(p), p.Valid? && p.cleanup != []);
  }

  lemma {:induction false} AddFour(
    good: PhaseEvidence -> bool, g: PhaseEvidence, w: PhaseEvidence, t: PhaseEvidence, c: PhaseEvidence,
    hasG: bool, hasW: bool, hasT: bool, hasC: bool)
    requires good(g) && good(w) && good(t) && good(c)
    requires g.phase == Given && w.phase == When && t.phase == Then && c.phase == Cleanup
    ensures AreEvidence(good, Recorded(hasG, g) + Recorded(hasW, w) + Recorded(hasT, t) + Recorded(hasC, c), 4)
  {
    assert [] + Recorded(hasG, g) == Recorded(hasG, g);
    AddEvidence(good, [], hasG, g);
    AddEvidence(good, Recorded(hasG, g), hasW, w);
    AddEvidence(good, Recorded(hasG, g) + Recorded(hasW, w), hasT, t);
    AddEvidence(good, Recorded(hasG, g) + Recorded(hasW, w) + Recorded(hasT, t), hasC, c);
  }

  function Ordinal(phase: Phase): nat {
    match phase case Given => 0 case When => 1 case Then => 2 case Cleanup => 3
  }

  /**
   * A result counts no failure exactly when nothing that was run failed: no given, when or cleanup step
   * threw, and every assertion before the first without arguments holds.
   */
  lemma NothingFailedExactlyWhen(p: Plan)
    requires p.Valid?
    ensures CountAll(Trace(p)).failed == 0
            <==> && NoneThrows(p.cleanup)
                 && (p.runtime.Succeeds? ==>
                       && NoneThrows(p.given) && NoneThrows(p.when_)
                       && forall i :: 0 <= i < |p.then_| && (forall j :: 0 <= j <= i ==> p.then_[j] != Malformed) ==>
                            p.then_[i] == Holds)
  {
    var g, w, t, c := TraceIs(p);
    CountsAre(Trace(p));
    NoFailurePlaces(Trace(p));
    NoFailureInParts(g, w, t, c);
    NoFailureRecorded(Cleanup, p.cleanup, c);
    if p.runtime.Succeeds? {
      NoFailureRecorded(Given, p.given, g);
      if NoneThrows(p.given) {
        NoFailureRecorded(When, p.when_, w);
        if NoneThrows(p.when_) {
          NoFailureAsserted(p.then_, t);
        }
      }
    }
  }

  ghost predicate NoFailure(steps: seq<StepResult>) {
    forall i :: 0 <= i < |steps| ==> steps[i].status !in {Failed, Errored}
  }

  lemma NoFailurePlaces(steps: seq<StepResult>)
    ensures |Places(steps, {Failed, Errored})| == 0 <==> NoFailure(steps)
  {
    var places := Places(steps, {Failed, Errored});
    if !NoFailure(steps) {
      var i :| 0 <= i < |steps| && steps[i].status in {Failed, Errored};
      assert i in places;
    } else {
      assert places == {};
    }
  }

  lemma NoFailureConcat(a: seq<StepResult>, b: seq<StepResult>)
    ensures NoFailure(a + b) <==> NoFailure(a) && NoFailure(b)
  {
    if NoFailure(a + b) {
      assert forall i :: 0 <= i < |a| ==> a[i] == (a + b)[i];
      assert forall i :: 0 <= i < |b| ==> b[i] == (a + b)[|a| + i];
    }
  }

  lemma NoFailureInParts(g: seq<StepResult>, w: seq<StepResult>, t: seq<StepResult>, c: seq<StepResult>)
    ensures NoFailure(g + w + t + c) <==> NoFailure(g) && NoFailure(w) && NoFailure(t) && NoFailure(c)
  {
    NoFailureConcat(g + w + t, c);
    NoFailureConcat(g + w, t);
    NoFailureConcat(g, w);
  }

  lemma NoFailureRecorded(phase: Phase, os: seq<Outcome>, results: seq<StepResult>)
    requires Records(phase, os, results) && (StopsAtFirstThrow(os, |results|) || |results| == |os|)
    ensures NoFailure(results) <==> NoneThrows(os)
  {
    if NoFailure(results) && |results| > 0 {
      assert results[|results| - 1].status == Passed;
    }
    forall i | 0 <= i < |results| && NoFailure(results) ensures os[i].Succeeds? {
      assert results[i].status !in {Failed, Errored};
    }
  }

  lemma NoFailureAsserted(as_: seq<Assertion>, results: seq<StepResult>)
    requires RecordsAssertions(as_, results)
    ensures NoFailure(results)
            <==> forall i :: 0 <= i < |as_| && (forall j :: 0 <= j <= i ==> as_[j] != Malformed) ==> as_[i] == Holds
  {
    if NoFailure(results) {
      forall i | 0 <= i < |as_| && (forall j :: 0 <= j <= i ==> as_[j] != Malformed) ensures as_[i] == Holds {
        assert i < |results|;
        assert results[i].status !in {Failed, Errored};
      }
    }
  }

  // ----- What every run keeps

  /**
   * Once the scenario is known, every cleanup step is run exactly once, in order and after all else,
   * on every way the run can end.
   */
  lemma CleanupIsWholeAndLast(p: Plan, k: nat)
    requires p.Valid? && k < |Trace(p)|
    ensures |Trace(p)| >= |p.cleanup|
    ensures Trace(p)[k].phase == Cleanup <==> k >= |Trace(p)| - |p.cleanup|
    ensures Trace(p)[k].phase == Cleanup ==>
              var i := k - (|Trace(p)| - |p.cleanup|);
              Trace(p)[k] == ResultOf(Cleanup, i, p.cleanup[i])
  {
    var before := StepsBeforeCleanup(p);
    assert forall i :: 0 <= i < |before| ==> before[i].phase != Cleanup;
  }

  /** An assertion is evaluated only if every given and every when step was run and passed. */
  lemma AssertionsComeAfterSuccess(p: Plan, k: nat)
    requires k < |Trace(p)| && Trace(p)[k].phase == Then
    ensures p.Valid? && p.runtime.Succeeds?
    ensures k == |p.given| + |p.when_| + Trace(p)[k].index
    ensures forall j :: 0 <= j < |p.given| + |p.when_| ==> Trace(p)[j].status == Passed
  {
    ThenIsReached(p, k);
    AllPassed(Given, p.given);
    AllPassed(When, p.when_);
  }

  lemma ThenIsReached(p: Plan, k: nat)
    requires k < |Trace(p)| && Trace(p)[k].phase == Then
    ensures ReachesThen(p) && k == |GivenSteps(p)| + |WhenSteps(p)| + Trace(p)[k].index
  {
    PhaseAt(p, k);
  }

  lemma PhaseAt(p: Plan, k: nat)
    requires k < |Trace(p)|
    ensures var g, w, t, s := |GivenSteps(p)|, |WhenSteps(p)|, |ThenSteps(p)|, Trace(p)[k];
            && (k < g ==> s.phase == Given)
            && (g <= k < g + w ==> s.phase == When)
            && (g + w <= k < g + w + t ==> s.phase == Then && s.index == k - g - w)
            && (g + w + t <= k ==> s.phase == Cleanup)
  {
  }

  lemma OnlyTheLastFails(phase: Phase, os: seq<Outcome>, i: nat)
    requires i < |Attempted(phase, os)| && IsFailure(Attempted(phase, os)[i].status)
    ensures i == |Attempted(phase, os)| - 1 && !AllSucceed(os)
  {
    FirstThrowIsFirst(os);
  }

  lemma FailsLast(p: Plan, k: nat)
    requires k < |StepsBeforeCleanup(p)| && StepsBeforeCleanup(p)[k].phase in {Given, When}
    requires IsFailure(StepsBeforeCleanup(p)[k].status)
    ensures k == |StepsBeforeCleanup(p)| - 1
  {
    var g, w := GivenSteps(p), WhenSteps(p);
    if k < |g| {
      OnlyTheLastFails(Given, p.given, k);
    } else {
      assert k < |g| + |w|;
      OnlyTheLastFails(When, p.when_, k - |g|);
    }
  }

  /** A given or when step that fails ends the run: only cleanup comes after it. */
  lemma FailureStopsTheRun(p: Plan, k: nat, j: nat)
    requires k < j < |Trace(p)| && Trace(p)[k].phase in {Given, When} && IsFailure(Trace(p)[k].status)
    ensures Trace(p)[j].phase == Cleanup
  {
    var before, after := StepsBeforeCleanup(p), CleanupSteps(p);
    assert forall i :: 0 <= i < |after| ==> after[i].phase == Cleanup;
    FailsLast(p, k);
  }

  predicate AllGoesWell(p: Plan) {
    && p.Valid? && p.runtime.Succeeds?
    && (forall i :: 0 <= i < |p.given| ==> p.given[i].Succeeds?)
    && (forall i :: 0 <= i < |p.when_| ==> p.when_[i].Succeeds?)
    && (forall i :: 0 <= i < |p.then_| ==> p.then_[i].Holds?)
  }

  /** Nothing but the scenario's own steps and assertions decides whether a run completes. */
  lemma CompletesExactlyWhen(p: Plan)
    requires ExpectationOf(p).None?
    ensures FinalStatus(p) == Completed <==> AllGoesWell(p)
  {
    if p.Valid? {
      FirstThrowIsFirst(p.given);
      FirstThrowIsFirst(p.when_);
    }
  }

  lemma {:induction false} TotalsConcat(a: seq<PhaseEvidence>, b: seq<PhaseEvidence>)
    ensures Totals(a + b) == Totals(a).Plus(Totals(b))
  {
    if b == [] {
      assert a + b == a;
    } else {
      assert (a + b)[..|a + b| - 1] == a + b[..|b| - 1];
      TotalsConcat(a, b[..|b| - 1]);
    }
  }

  /**
   * The counts of the result are the totals of the evidence, except when an assertion without arguments
   * comes after ones that were recorded: these are counted in the result only.
   */
  lemma TotalsAgree(p: Plan)
    ensures CountAll(Trace(p)) == Totals(Phases(p)) <==> !CutOff(p) || FirstMalformed(p.then_) == 0
  {
    var lost := if CutOff(p) then CountAll(ThenSteps(p)) else NO_STEPS;
    CountConcat(StepsBeforeCleanup(p), CleanupSteps(p));
    TotalsConcat(PhasesBeforeCleanup(p), CleanupPhases(p));
    TotalsBeforeCleanup(p);
    MaybePhase(p.Valid? && p.cleanup != [], Cleanup, CleanupSteps(p));
    EqualWithoutLoss(Totals(PhasesBeforeCleanup(p)), lost, CountAll(CleanupSteps(p)));
    LostCounts(p);
  }

  const NO_STEPS := Counts(0, 0, 0)

  lemma PlusNothing(counts: Counts)
    ensures counts.Plus(NO_STEPS) == counts
  {
  }

  lemma EqualWithoutLoss(kept: Counts, lost: Counts, cleanup: Counts)
    ensures kept.Plus(lost).Plus(cleanup) == kept.Plus(cleanup) <==> lost == NO_STEPS
  {
    if lost == NO_STEPS {
      PlusNothing(kept);
    } else if kept.Plus(lost).Plus(cleanup) == kept.Plus(cleanup) {
      NothingLost(kept, lost, cleanup);
    }
  }

  lemma NothingLost(kept: Counts, lost: Counts, cleanup: Counts)
    requires kept.Plus(lost).Plus(cleanup) == kept.Plus(cleanup)
    ensures lost == NO_STEPS
  {
    assert kept.passed + lost.passed + cleanup.passed == kept.passed + cleanup.passed;
    assert kept.failed + lost.failed + cleanup.failed == kept.failed + cleanup.failed;
    assert kept.skipped + lost.skipped + cleanup.skipped == kept.skipped + cleanup.skipped;
  }

  lemma LostCounts(p: Plan)
    ensures var lost := if CutOff(p) then CountAll(ThenSteps(p)) else NO_STEPS;
            lost == NO_STEPS <==> !CutOff(p) || FirstMalformed(p.then_) == 0
  {
    CountTotal(ThenSteps(p));
  }

  lemma OnePhase(phase: Phase, steps: seq<StepResult>)
    ensures Totals([EvidenceOf(phase, steps)]) == CountAll(steps)
  {
    var one := [EvidenceOf(phase, steps)];
    assert one[..0] == [];
    assert Totals(one) == NO_STEPS.Plus(CountAll(steps));
    NothingPlus(CountAll(steps));
  }

  lemma NothingPlus(counts: Counts)
    ensures NO_STEPS.Plus(counts) == counts
  {
  }

  /** The totals of one phase, if it is recorded at all. */
  lemma MaybePhase(recorded: bool, phase: Phase, steps: seq<StepResult>)
    ensures Totals(if recorded then [EvidenceOf(phase, steps)] else []) == if recorded then CountAll(steps) else NO_STEPS
  {
    OnePhase(phase, steps);
  }

  lemma CountsBeforeCleanup(p: Plan)
    ensures CountAll(StepsBeforeCleanup(p))
            == CountAll(GivenSteps(p)).Plus(CountAll(WhenSteps(p))).Plus(CountAll(ThenSteps(p)))
  {
    CountConcat(GivenSteps(p) + WhenSteps(p), ThenSteps(p));
    CountConcat(GivenSteps(p), WhenSteps(p));
  }

  lemma RecordedBeforeCleanup(p: Plan)
    ensures Totals(PhasesBeforeCleanup(p))
            == CountAll(GivenSteps(p)).Plus(CountAll(WhenSteps(p))).Plus(
                 if CutOff(p) then NO_STEPS else CountAll(ThenSteps(p)))
  {
    var g := if ReachesGiven(p) then [EvidenceOf(Given, GivenSteps(p))] else [];
    var w := if ReachesWhen(p) then [EvidenceOf(When, WhenSteps(p))] else [];
    var t := if ReachesThen(p) && !CutOff(p) then [EvidenceOf(Then, ThenSteps(p))] else [];
    TotalsConcat(g + w, t);
    TotalsConcat(g, w);
    MaybePhase(ReachesGiven(p), Given, GivenSteps(p));
    MaybePhase(ReachesWhen(p), When, WhenSteps(p));
    MaybePhase(ReachesThen(p) && !CutOff(p), Then, ThenSteps(p));
    assert !ReachesThen(p) ==> ThenSteps(p) == [];
  }

  lemma LossAtTheEnd(before: Counts, last: Counts, cut: bool)
    ensures before.Plus(last) == before.Plus(if cut then NO_STEPS else last).Plus(if cut then last else NO_STEPS)
  {
    PlusNothing(before);
    PlusNothing(before.Plus(last));
  }

  lemma TotalsBeforeCleanup(p: Plan)
    ensures CountAll(StepsBeforeCleanup(p))
            == Totals(PhasesBeforeCleanup(p)).Plus(if CutOff(p) then CountAll(ThenSteps(p)) else NO_STEPS)
  {
    CountsBeforeCleanup(p);
    RecordedBeforeCleanup(p);
    LossAtTheEnd(CountAll(GivenSteps(p)).Plus(CountAll(WhenSteps(p))), CountAll(ThenSteps(p)), CutOff(p));
  }

  // ----- What an expectation sees

  lemma {:induction false} FirstFailureOfConcat(a: seq<StepResult>, b: seq<StepResult>)
    ensures FirstFailure(a + b) == if FirstFailure(a).Some? then FirstFailure(a) else FirstFailure(b)
  {
    if a == [] {
      assert a + b == b;
    } else {
      assert (a + b)[1..] == a[1..] + b;
      FirstFailureOfConcat(a[1..], b);
    }
  }

  /** The code of the first cleanup step that throws. */
  function CleanupCode(cleanup: seq<Outcome>): Option<string> {
    if FirstThrow(cleanup) < |cleanup| then FirstThrowOf(cleanup) else None
  }

  function FirstThrowOf(os: seq<Outcome>): Option<string>
    requires FirstThrow(os) < |os|
  {
    FirstThrowIsFirst(os);
    os[FirstThrow(os)].code
  }

  lemma {:induction false} FirstFailureIsFirst(steps: seq<StepResult>, n: nat)
    requires n <= |steps| && forall i :: 0 <= i < n ==> !IsFailure(steps[i].status)
    requires n < |steps| ==> IsFailure(steps[n].status)
    ensures FirstFailure(steps) == if n < |steps| then Some(steps[n]) else None
  {
    if n > 0 {
      FirstFailureIsFirst(steps[1..], n - 1);
    }
  }

  lemma CodeOfCleanup(p: Plan)
    requires p.Valid?
    ensures FirstFailure(CleanupSteps(p)).Some? <==> !AllSucceed(p.cleanup)
    ensures StepCode(CleanupSteps(p)) == CleanupCode(p.cleanup)
  {
    FirstThrowIsFirst(p.cleanup);
    FirstFailureIsFirst(CleanupSteps(p), FirstThrow(p.cleanup));
  }

  /** The first step that failed has this code. */
  ghost predicate FirstFailureHas(steps: seq<StepResult>, code: Option<string>) {
    exists k: nat :: FailsFirstAt(steps, k) && steps[k].errorCode == code
  }

  ghost predicate FailsFirstAt(steps: seq<StepResult>, k: nat) {
    && k < |steps| && steps[k].status in {Failed, Errored}
    && forall j :: 0 <= j < k ==> steps[j].status !in {Failed, Errored}
  }

  lemma {:induction false} FirstFailureMeans(steps: seq<StepResult>)
    ensures match FirstFailure(steps)
            case Some(s) => exists k: nat :: FailsFirstAt(steps, k) && steps[k] == s
            case None => forall i :: 0 <= i < |steps| ==> steps[i].status !in {Failed, Errored}
  {
    if steps != [] {
      if IsFailure(steps[0].status) {
        assert FailsFirstAt(steps, 0);
      } else {
        FirstFailureMeans(steps[1..]);
        if FirstFailure(steps[1..]).Some? {
          var k: nat :| FailsFirstAt(steps[1..], k) && steps[1..][k] == FirstFailure(steps[1..]).value;
          FailsOneLater(steps, k);
        } else {
          assert forall i :: 0 < i < |steps| ==> steps[i] == steps[1..][i - 1];
        }
      }
    }
  }

  lemma FailsOneLater(steps: seq<StepResult>, k: nat)
    requires steps != [] && steps[0].status !in {Failed, Errored} && FailsFirstAt(steps[1..], k)
    ensures FailsFirstAt(steps, k + 1) && steps[k + 1] == steps[1..][k]
  {
    assert forall j :: 0 < j <= k + 1 ==> steps[j] == steps[1..][j - 1];
  }

  lemma StepCodeMeans(steps: seq<StepResult>, code: string)
    ensures StepCode(steps) == Some(code) <==> FirstFailureHas(steps, Some(code))
  {
    FirstFailureMeans(steps);
    if k: nat :| FailsFirstAt(steps, k) && steps[k].errorCode == Some(code) {
      var s := FirstFailure(steps).value;
      var j: nat :| FailsFirstAt(steps, j) && steps[j] == s;
      assert j == k;
    }
  }

  /**
   * An expectation is met exactly when the run without it would end as expected and, if a code is expected,
   * the first step that failed has that code. Without an expectation the run ends as it is.
   */
  lemma ExpectationIsMetExactlyWhen(p: Plan)
    ensures ExpectationOf(p).None? ==> FinalStatus(p) == if AllGoesWell(p) then Completed else RunFailed
    ensures ExpectationOf(p).Some? ==>
              var e := p.expected.value;
              FinalStatus(p)
              == if && (if AllGoesWell(p) then e.status == Completed else e.status == RunFailed)
                    && (e.errorCode.Some? ==> FirstFailureHas(Trace(p), e.errorCode))
                 then Completed else RunFailed
  {
    if p.Valid? {
      FirstThrowIsFirst(p.given);
      FirstThrowIsFirst(p.when_);
      if p.expected.Some? && p.expected.value.errorCode.Some? {
        StepCodeMeans(Trace(p), p.expected.value.errorCode.value);
      }
    }
  }

  /** The code of a result is that of the first step that failed, or else the one the engine itself gave up with. */
  lemma ReportedCodeMeans(p: Plan, code: string)
    ensures ReportedCode(p) == Some(code)
            <==> || FirstFailureHas(Trace(p), Some(code))
                 || ((forall other :: !FirstFailureHas(Trace(p), Some(other)))
                     && match p
                        case Unreadable(c) => c == code
                        case Invalid => false
                        case Valid(_, _, _, _, _, _) => p.runtime == Throws(Some(code)))
  {
    StepCodeMeans(Trace(p), code);
    if StepCode(Trace(p)).Some? {
      StepCodeMeans(Trace(p), StepCode(Trace(p)).value);
    }
    if other :| FirstFailureHas(Trace(p), Some(other)) {
      StepCodeMeans(Trace(p), other);
    }
  }

  predicate DecidedBeforeCleanup(p: Plan)
    requires p.Valid?
  {
    match p.expected
    case None => true
    case Some(e) => e.errorCode.None? || RawStatus(p) != e.status || FirstFailure(StepsBeforeCleanup(p)).Some?
  }

  /**
   * Cleanup steps do not change the outcome, with one exception: if a code is expected, the raw status is
   * the expected one and nothing failed before, then the code is looked for among the cleanup steps.
   */
  lemma CleanupChangesTheOutcomeExactlyWhen(p: Plan)
    requires p.Valid?
    ensures DecidedBeforeCleanup(p) <==> forall c: seq<Outcome> :: FinalStatus(p.(cleanup := c)) == FinalStatus(p)
  {
    if DecidedBeforeCleanup(p) {
      forall c: seq<Outcome> ensures FinalStatus(p.(cleanup := c)) == FinalStatus(p) {
        SameBeforeCleanup(p, c);
        FirstFailureOfConcat(StepsBeforeCleanup(p), CleanupSteps(p));
        FirstFailureOfConcat(StepsBeforeCleanup(p), CleanupSteps(p.(cleanup := c)));
      }
    } else {
      var none, one := [], [Throws(p.expected.value.errorCode)];
      JudgedByCleanup(p, none);
      JudgedByCleanup(p, one);
      assert FinalStatus(p.(cleanup := none)) != FinalStatus(p.(cleanup := one));
    }
  }

  lemma SameBeforeCleanup(p: Plan, c: seq<Outcome>)
    requires p.Valid?
    ensures var q := p.(cleanup := c);
            StepsBeforeCleanup(q) == StepsBeforeCleanup(p) && RawStatus(q) == RawStatus(p)
  {
  }

  lemma JudgedByCleanup(p: Plan, c: seq<Outcome>)
    requires p.Valid? && !DecidedBeforeCleanup(p)
    ensures FinalStatus(p.(cleanup := c)) == if CleanupCode(c) == p.expected.value.errorCode then Completed else RunFailed
  {
    var q := p.(cleanup := c);
    SameBeforeCleanup(p, c);
    FirstFailureOfConcat(StepsBeforeCleanup(q), CleanupSteps(q));
    CodeOfCleanup(q);
  }

  /**
   * An expectation of the engine's own error is not met by that error: with the runtime refused, it is met
   * exactly when the first cleanup step to throw has the expected code. The result reports the code of the
   * engine all the same, if no cleanup step has one.
   */
  lemma EngineErrorIsNotWhatIsExpected(p: Plan, code: string)
    requires p.Valid? && p.runtime == Throws(Some(code)) && p.expected == Some(Expectation(RunFailed, Some(code)))
    ensures FinalStatus(p) == Completed <==> CleanupCode(p.cleanup) == Some(code)
    ensures CleanupCode(p.cleanup).None? ==> ReportedCode(p) == Some(code)
  {
    RefusedRuntimeLeavesTheCleanup(p);
    CodeOfCleanup(p);
  }

  lemma RefusedRuntimeLeavesTheCleanup(p: Plan)
    requires p.Valid? && p.runtime.Throws?
    ensures Trace(p) == CleanupSteps(p) && RawStatus(p) == RunFailed
  {
  }
}
