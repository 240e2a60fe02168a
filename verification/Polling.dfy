/** The timed loop around one assertion (apps/run-supervisor/src/scenario-engine.ts). */
module Polling {
  import opened Wrappers

  const POLL_INTERVAL_MS := 500

  /** What one evaluation gives. One that throws gives nothing and is tried again. */
  datatype Evaluation = Verdict(passed: bool, message: string) | Threw

  /**
   * How long things take beyond what the loop asks for, by attempt: the time before the deadline is looked
   * at, the evaluation, and the oversleep. Any such delays give a clock that never runs backwards and sleeps
   * that last at least as long as asked.
   */
  datatype Delays = Delays(before: nat -> nat, evaluation: nat -> nat, oversleep: nat -> nat)

  datatype Outcome = Outcome(passed: bool, attempts: nat, duration: nat, last: Option<string>)

  predicate Passes(e: Evaluation) {
    e.Verdict? && e.passed
  }

  // ----- When attempts happen, counted from the start of the assertion

  /** When the deadline is looked at before attempt `k`; attempts are counted from 0. */
  function StartOf(d: Delays, k: nat): nat
    decreases k, 0
  {
    if k == 0 then d.before(0) else EndOf(d, k - 1) + POLL_INTERVAL_MS + d.oversleep(k - 1) + d.before(k)
  }

  function EndOf(d: Delays, k: nat): nat
    decreases k, 1
  {
    StartOf(d, k) + d.evaluation(k)
  }

  /** The loop goes on to attempt `k` once the one before it is over. */
  predicate GoesOn(d: Delays, within: nat, k: nat) {
    StartOf(d, k) < within && (k > 0 ==> within - EndOf(d, k - 1) > POLL_INTERVAL_MS)
  }

  /** Attempt `k` is made unless one before it passes. */
  predicate Reached(d: Delays, within: nat, k: nat) {
    forall i :: 0 <= i <= k ==> GoesOn(d, within, i)
  }

  /** The message of the last evaluation among the first `n` that did not throw. */
  function LastMessage(oracle: nat -> Evaluation, n: nat): Option<string> {
    if n == 0 then None
    else if oracle(n - 1).Verdict? then Some(oracle(n - 1).message)
    else LastMessage(oracle, n - 1)
  }

  /** The outcome is that of the loop. */
  /** The message is that of the last evaluation that gave a verdict. */
  lemma {:induction false} LastMessageIsLast(oracle: nat -> Evaluation, n: nat)
    ensures LastMessage(oracle, n).None? <==> forall k :: 0 <= k < n ==> !oracle(k).Verdict?
    ensures LastMessage(oracle, n).Some? ==>
              exists k :: 0 <= k < n && oracle(k).Verdict? && oracle(k).message == LastMessage(oracle, n).value
                          && forall j :: k < j < n ==> !oracle(j).Verdict?
  {
    if n > 0 && !oracle(n - 1).Verdict? {
      LastMessageIsLast(oracle, n - 1);
    }
  }

  ghost predicate IsOutcome(d: Delays, within: nat, oracle: nat -> Evaluation, r: Outcome) {
    && (forall k :: 0 <= k < r.attempts ==> GoesOn(d, within, k))
    && (forall k :: 0 <= k < r.attempts && k + 1 < r.attempts ==> !Passes(oracle(k)))
    && (r.passed ==> r.attempts > 0 && Passes(oracle(r.attempts - 1)) && r.duration == EndOf(d, r.attempts - 1))
    && (!r.passed ==> (r.attempts > 0 ==> !Passes(oracle(r.attempts - 1))) && !GoesOn(d, within, r.attempts))
    && (!r.passed ==> r.duration == GivesUpAt(d, within, r.attempts))
    && r.last == LastMessage(oracle, r.attempts)
  }

  /** When the loop ends after `n` attempts that did not pass: without a last sleep if the deadline is near. */
  function GivesUpAt(d: Delays, within: nat, n: nat): nat {
    if n > 0 && within - EndOf(d, n - 1) <= POLL_INTERVAL_MS then EndOf(d, n - 1) else StartOf(d, n)
  }

  // ----- The loop

  class Clock {
    var now: nat

    method Advance(ms: nat)
      modifies this
      ensures now == old(now) + ms
    {
      now := now + ms;
    }
  }

  /** The first `n` attempts are made, none passes, and `last` is what they leave. */
  ghost predicate Tried(d: Delays, within: nat, oracle: nat -> Evaluation, n: nat, last: Option<string>) {
    && (forall k :: 0 <= k < n ==> GoesOn(d, within, k) && !Passes(oracle(k)))
    && last == LastMessage(oracle, n)
  }

  method ExecuteAssertion(clock: Clock, d: Delays, within: nat, oracle: nat -> Evaluation) returns (r: Outcome)
    modifies clock
    ensures IsOutcome(d, within, oracle, r) && clock.now == old(clock.now) + r.duration
  {
    var start := clock.now;
    var deadline := start + within;
    var attempts: nat := 0;
    var last := None;
    clock.Advance(d.before(0));
    while clock.now < deadline
      invariant clock.now == start + StartOf(d, attempts)
      invariant clock.now < deadline ==> GoesOn(d, within, attempts)
      invariant clock.now >= deadline ==> FailsAt(d, within, attempts, clock.now - start)
      invariant Tried(d, within, oracle, attempts, last)
      decreases deadline - clock.now
    {
      attempts := attempts + 1;
      var e := oracle(attempts - 1);
      clock.Advance(d.evaluation(attempts - 1));
      if e.Verdict? && e.passed {
        PassedIsOutcome(d, within, oracle, attempts, last);
        return Outcome(true, attempts, clock.now - start, Some(e.message));
      }
      TriedOneMore(d, within, oracle, attempts, last);
      last := if e.Verdict? then Some(e.message) else last;
      AfterAttempt(d, within, attempts);
      var remaining := deadline - clock.now;
      if remaining <= POLL_INTERVAL_MS {
        FailedIsOutcome(d, within, oracle, attempts, clock.now - start, last);
        return Outcome(false, attempts, clock.now - start, last);
      }
      clock.Advance(POLL_INTERVAL_MS + d.oversleep(attempts - 1));
      clock.Advance(d.before(attempts));
    }
    FailedIsOutcome(d, within, oracle, attempts, clock.now - start, last);
    r := Outcome(false, attempts, clock.now - start, last);
  }

  predicate FailsAt(d: Delays, within: nat, n: nat, duration: nat) {
    !GoesOn(d, within, n) && duration == GivesUpAt(d, within, n)
  }

  /** Either the deadline is too near for another sleep, or the loop looks at it again after one. */
  lemma AfterAttempt(d: Delays, within: nat, n: nat)
    requires n > 0
    ensures StartOf(d, n) == EndOf(d, n - 1) + POLL_INTERVAL_MS + d.oversleep(n - 1) + d.before(n)
    ensures within - EndOf(d, n - 1) <= POLL_INTERVAL_MS ==> FailsAt(d, within, n, EndOf(d, n - 1))
    ensures within - EndOf(d, n - 1) > POLL_INTERVAL_MS ==>
              if StartOf(d, n) < within then GoesOn(d, within, n) else FailsAt(d, within, n, StartOf(d, n))
  {
  }

  lemma TriedOneMore(d: Delays, within: nat, oracle: nat -> Evaluation, n: nat, last: Option<string>)
    requires n > 0 && Tried(d, within, oracle, n - 1, last) && GoesOn(d, within, n - 1) && !Passes(oracle(n - 1))
    ensures Tried(d, within, oracle, n, if oracle(n - 1).Verdict? then Some(oracle(n - 1).message) else last)
  {
  }

  lemma PassedIsOutcome(d: Delays, within: nat, oracle: nat -> Evaluation, n: nat, last: Option<string>)
    requires n > 0 && Tried(d, within, oracle, n - 1, last) && GoesOn(d, within, n - 1) && Passes(oracle(n - 1))
    ensures IsOutcome(d, within, oracle, Outcome(true, n, EndOf(d, n - 1), Some(oracle(n - 1).message)))
  {
  }

  lemma FailedIsOutcome(
    d: Delays, within: nat, oracle: nat -> Evaluation, n: nat, duration: nat, last: Option<string>)
    requires Tried(d, within, oracle, n, last) && FailsAt(d, within, n, duration)
    ensures IsOutcome(d, within, oracle, Outcome(false, n, duration, last))
  {
  }

  // ----- What it amounts to

  lemma {:induction false} AttemptsAreSpacedOut(d: Delays, k: nat)
    ensures StartOf(d, k) >= k * POLL_INTERVAL_MS
  {
    if k > 0 {
      AttemptsAreSpacedOut(d, k - 1);
    }
  }

  /** There are at most as many attempts as intervals begin within the window. */
  lemma AttemptsAreBounded(d: Delays, within: nat, oracle: nat -> Evaluation, r: Outcome)
    requires IsOutcome(d, within, oracle, r)
    ensures r.attempts <= (within + 499) / 500
  {
    if r.attempts > 0 {
      assert GoesOn(d, within, r.attempts - 1);
      AttemptsAreSpacedOut(d, r.attempts - 1);
    }
  }

  /** The assertion passes exactly when one of the attempts there is time for passes. */
  lemma PassesExactlyWhen(d: Delays, within: nat, oracle: nat -> Evaluation, r: Outcome)
    requires IsOutcome(d, within, oracle, r)
    ensures r.passed <==> exists k: nat :: Reached(d, within, k) && Passes(oracle(k))
  {
    if r.passed {
      assert Reached(d, within, r.attempts - 1);
    } else {
      forall k: nat | Reached(d, within, k) ensures !Passes(oracle(k)) {
        assert r.attempts <= k ==> GoesOn(d, within, r.attempts);
      }
    }
  }

  /** It fails no earlier than one interval before the deadline. */
  lemma FailsLate(d: Delays, within: nat, oracle: nat -> Evaluation, r: Outcome)
    requires IsOutcome(d, within, oracle, r) && !r.passed
    ensures r.duration + 500 >= within
  {
  }

  /** The loop has one outcome. */
  lemma OutcomeIsUnique(d: Delays, within: nat, oracle: nat -> Evaluation, r: Outcome, s: Outcome)
    requires IsOutcome(d, within, oracle, r) && IsOutcome(d, within, oracle, s)
    ensures r == s
  {
    if r.attempts < s.attempts {
      NoFewerAttempts(d, within, oracle, r, s);
    } else if s.attempts < r.attempts {
      NoFewerAttempts(d, within, oracle, s, r);
    }
  }

  lemma NoFewerAttempts(d: Delays, within: nat, oracle: nat -> Evaluation, r: Outcome, s: Outcome)
    requires IsOutcome(d, within, oracle, r) && IsOutcome(d, within, oracle, s)
    ensures r.attempts >= s.attempts
  {
    assert r.attempts < s.attempts ==> GoesOn(d, within, r.attempts);
  }

  /** A longer window never turns a pass into a failure: it gives the very same outcome. */
  lemma LongerWindowKeepsThePass(d: Delays, within: nat, longer: nat, oracle: nat -> Evaluation, r: Outcome)
    requires within <= longer && IsOutcome(d, within, oracle, r) && r.passed
    ensures IsOutcome(d, longer, oracle, r)
  {
    forall k | 0 <= k < r.attempts ensures GoesOn(d, longer, k) {
      assert GoesOn(d, within, k);
    }
  }

  predicate NoFaster(d: Delays, slow: Delays, k: nat) {
    d.before(k) <= slow.before(k) && d.evaluation(k) <= slow.evaluation(k) && d.oversleep(k) <= slow.oversleep(k)
  }

  lemma {:induction false} SlowerStartsLater(d: Delays, slow: Delays, k: nat)
    requires forall i: nat :: i <= k ==> NoFaster(d, slow, i)
    ensures StartOf(d, k) <= StartOf(slow, k) && EndOf(d, k) <= EndOf(slow, k)
  {
    assert NoFaster(d, slow, k);
    if k > 0 {
      SlowerStartsLater(d, slow, k - 1);
      assert NoFaster(d, slow, k - 1);
    }
  }

  /** What passes in a slow environment passes in a faster one that gives the same evaluations. */
  lemma FasterKeepsThePass(d: Delays, slow: Delays, within: nat, oracle: nat -> Evaluation, r: Outcome, s: Outcome)
    requires forall i: nat :: NoFaster(d, slow, i)
    requires IsOutcome(d, within, oracle, r) && IsOutcome(slow, within, oracle, s) && s.passed
    ensures r.passed && r.attempts == s.attempts && r.last == s.last
  {
    forall k | 0 <= k < s.attempts ensures GoesOn(d, within, k) {
      assert GoesOn(slow, within, k);
      SlowerStartsLater(d, slow, k);
      if k > 0 {
        SlowerStartsLater(d, slow, k - 1);
      }
    }
    OutcomeIsUnique(d, within, oracle, r, s.(duration := EndOf(d, s.attempts - 1)));
  }

  /** Without delays, an assertion that never passes uses up the bound exactly. */
  lemma BoundIsReached(within: nat, oracle: nat -> Evaluation, r: Outcome)
    requires forall k: nat :: !Passes(oracle(k))
    requires IsOutcome(Delays(k => 0, k => 0, k => 0), within, oracle, r)
    ensures r.attempts == (within + 499) / 500
  {
    var d: Delays := Delays(k => 0, k => 0, k => 0);
    AttemptsAreBounded(d, within, oracle, r);
    assert !r.passed && !GoesOn(d, within, r.attempts);
    NoDelayNoDrift(d, r.attempts);
    if r.attempts > 0 {
      NoDelayNoDrift(d, r.attempts - 1);
    }
  }

  lemma {:induction false} NoDelayNoDrift(d: Delays, k: nat)
    requires forall i: nat :: d.before(i) == 0 && d.evaluation(i) == 0 && d.oversleep(i) == 0
    ensures StartOf(d, k) == EndOf(d, k) == k * POLL_INTERVAL_MS
  {
    if k > 0 {
      NoDelayNoDrift(d, k - 1);
    }
  }

  /** A window of length 0 is never looked into: the assertion fails unevaluated. */
  lemma EmptyWindowFails(d: Delays, oracle: nat -> Evaluation, r: Outcome)
    requires IsOutcome(d, 0, oracle, r)
    ensures r == Outcome(false, 0, d.before(0), None)
  {
    assert r.attempts > 0 ==> GoesOn(d, 0, 0);
  }
}
