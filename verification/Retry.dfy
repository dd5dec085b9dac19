/** Retry loops: Go's doubling delay and JavaScript's saturating one, both without
    a sleep after the last attempt, and the sequential batch executor. */
module Retry {
  import opened Text

  // ----- Go: doWithRetry

  const BASE_DELAY: nat := 1
  const MAX_DELAY: nat := 20

  /** How one call of the operation ends. A retryable error may ask for its own delay, in seconds. */
  datatype Call = Succeeds | FailsForGood | Retryable(retryAfter: int)

  datatype Answer = Nil | Fatal | LastError | ContextDone

  function Pow2(n: nat): nat {
    if n == 0 then 1 else 2 * Pow2(n - 1)
  }

  function Min(a: int, b: int): int {
    if a <= b then a else b
  }

  function Delay(attempt: nat, call: Call): int
    requires call.Retryable?
  {
    if call.retryAfter != 0 then call.retryAfter else Min(BASE_DELAY * Pow2(attempt), MAX_DELAY)
  }

  predicate Waits(calls: nat -> Call, attempt: nat) {
    calls(attempt).Retryable?
  }

  /** The calls before `n` all failed with a retryable error. */
  predicate AllRetryable(calls: nat -> Call, n: nat) {
    forall i :: 0 <= i < n ==> Waits(calls, i)
  }

  function Delays(calls: nat -> Call, n: nat): (d: seq<int>)
    requires AllRetryable(calls, n)
    ensures |d| == n
  {
    if n == 0 then []
    else
      assert Waits(calls, n - 1);
      Delays(calls, n - 1) + [Delay(n - 1, calls(n - 1))]
  }

  /** Runs the operation until it does not fail retryably, at most maxRetries + 1 times,
      sleeping once between two runs and never after the last. */
  method DoWithRetry(calls: nat -> Call, maxRetries: nat, cancelledAt: Option<nat>)
    returns (answer: Answer, runs: nat, sleeps: seq<int>)
    ensures 1 <= runs <= maxRetries + 1
    ensures AllRetryable(calls, runs - 1)
    ensures sleeps == Delays(calls, runs - 1)
    ensures answer == Nil <==> calls(runs - 1).Succeeds?
    ensures answer == Fatal <==> calls(runs - 1).FailsForGood?
    ensures answer == LastError ==> runs == maxRetries + 1 && Waits(calls, runs - 1)
    ensures cancelledAt.Some? ==> runs - 1 <= cancelledAt.value
    ensures answer == ContextDone ==> cancelledAt == Some(runs - 1) && runs <= maxRetries && Waits(calls, runs - 1)
  {
    sleeps := [];
    var attempt := 0;
    while attempt <= maxRetries
      invariant attempt <= maxRetries
      invariant AllRetryable(calls, attempt) && sleeps == Delays(calls, attempt)
      invariant cancelledAt.Some? ==> attempt <= cancelledAt.value
      decreases maxRetries - attempt
    {
      var err := calls(attempt);
      if err.Succeeds? {
        return Nil, attempt + 1, sleeps;
      }
      if err.FailsForGood? {
        return Fatal, attempt + 1, sleeps;
      }
      assert Waits(calls, attempt);
      if attempt == maxRetries {
        break;
      }
      var delay := err.retryAfter;
      if delay == 0 {
        delay := Min(BASE_DELAY * Pow2(attempt), MAX_DELAY);
      }
      if cancelledAt == Some(attempt) {
        return ContextDone, attempt + 1, sleeps;
      }
      sleeps := sleeps + [delay];
      attempt := attempt + 1;
    }
    return LastError, attempt + 1, sleeps;
  }

  function Sum(s: seq<int>): int {
    if s == [] then 0 else Sum(s[..|s| - 1]) + s[|s| - 1]
  }

  lemma {:induction false} Pow2Grows(n: nat)
    requires n >= 5
    ensures Pow2(n) >= 32
  {
    if n > 5 {
      Pow2Grows(n - 1);
    } else {
      assert Pow2(5) == 32;
    }
  }

  /** Without Retry-After headers, n >= 5 sleeps last 31 + 20(n - 5) seconds in all. */
  lemma {:induction false} TotalSleep(calls: nat -> Call, n: nat)
    requires AllRetryable(calls, n) && forall i :: 0 <= i < n ==> calls(i) == Retryable(0)
    ensures n >= 5 ==> Sum(Delays(calls, n)) == 31 + 20 * (n - 5)
    ensures n < 5 ==> Sum(Delays(calls, n)) == Pow2(n) - 1
  {
    if n > 0 {
      TotalSleep(calls, n - 1);
      var d := Delays(calls, n);
      assert d[..n - 1] == Delays(calls, n - 1);
      assert calls(n - 1) == Retryable(0);
      if n > 5 {
        Pow2Grows(n - 1);
      } else {
        assert Pow2(1) == 2 && Pow2(2) == 4 && Pow2(3) == 8 && Pow2(4) == 16;
      }
    }
  }

  /** Every sleep on its own: what the server asks for, or else 1, 2, 4, 8, 16 and then always 20 seconds. */
  lemma {:induction false} DelayAt(calls: nat -> Call, n: nat, i: nat)
    requires i < n && AllRetryable(calls, n)
    ensures calls(i).Retryable?
    ensures Delays(calls, n)[i] ==
            if calls(i).retryAfter != 0 then calls(i).retryAfter else if i < 5 then [1, 2, 4, 8, 16][i] else 20
  {
    assert Waits(calls, i);
    if i < n - 1 {
      DelayAt(calls, n - 1, i);
    } else {
      FirstPowers();
      if i >= 5 {
        Pow2Grows(i);
      }
    }
  }

  lemma FirstPowers()
    ensures Pow2(0) == 1 && Pow2(1) == 2 && Pow2(2) == 4 && Pow2(3) == 8 && Pow2(4) == 16
  {
  }

  // ----- JavaScript: executeTransactionWithRetry

  function MinReal(a: real, b: real): real {
    if a <= b then a else b
  }

  /** The update of the delay after each failed attempt. */
  function NextDelay(f: real, max: real, delay: real): real {
    MinReal(delay * f, max)
  }

  function Backoff(f: real, max: real): real -> real {
    delay => NextDelay(f, max, delay)
  }

  /** The delay before the (k+1)-st retry. */
  function Iterated(next: real -> real, initial: real, k: nat): real {
    if k == 0 then initial else next(Iterated(next, initial, k - 1))
  }

  /** The uncapped delay, `initial` times the k-th power of `f`. */
  function Uncapped(initial: real, f: real, k: nat): real {
    if k == 0 then initial else Uncapped(initial, f, k - 1) * f
  }

  lemma MulMonotone(a: real, b: real, f: real)
    requires a <= b && f >= 0.0
    ensures a * f <= b * f
  {
  }

  lemma GrowsByFactor(d: real, f: real)
    requires d >= 0.0 && f >= 1.0
    ensures d * f >= d
  {
  }

  lemma SaturatedStep(p: real, f: real, max: real)
    requires f >= 1.0 && max >= 0.0
    ensures NextDelay(f, max, MinReal(p, max)) == MinReal(p * f, max)
  {
    if p > max {
      GrowsByFactor(max, f);
      MulMonotone(max, p, f);
    }
  }

  lemma FirstDelay(initial: real, f: real, max: real)
    ensures Iterated(Backoff(f, max), initial, 1) == MinReal(Uncapped(initial, f, 1), max)
  {
    assert Iterated(Backoff(f, max), initial, 0) == initial == Uncapped(initial, f, 0);
    UncappedStep(initial, f, 0);
  }

  /** The running minimum is the minimum of the power: capping early never shortens a later delay. */
  lemma {:induction false} BackoffClosedForm(initial: real, f: real, max: real, k: nat)
    requires k >= 1 && f >= 1.0 && max >= 0.0
    ensures Iterated(Backoff(f, max), initial, k) == MinReal(Uncapped(initial, f, k), max)
  {
    if k == 1 {
      FirstDelay(initial, f, max);
    } else {
      BackoffClosedForm(initial, f, max, k - 1);
      IteratedStep(initial, f, max, k - 1);
      SaturatedStep(Uncapped(initial, f, k - 1), f, max);
      UncappedStep(initial, f, k - 1);
    }
  }

  lemma UncappedStep(initial: real, f: real, k: nat)
    ensures Uncapped(initial, f, k + 1) == Uncapped(initial, f, k) * f
  {
  }

  lemma IteratedStep(initial: real, f: real, max: real, k: nat)
    ensures Iterated(Backoff(f, max), initial, k + 1) == NextDelay(f, max, Iterated(Backoff(f, max), initial, k))
  {
  }

  ghost predicate ClosedFormHolds(initial: real, f: real, max: real) {
    forall k: nat :: k >= 1 ==> Iterated(Backoff(f, max), initial, k) == MinReal(Uncapped(initial, f, k), max)
  }

  /** The closed form holds at every retry exactly when the factor does not shrink the
      delay or the first delay after the initial one is not capped. */
  lemma ClosedFormExactly(initial: real, f: real, max: real)
    requires initial >= 0.0 && f >= 0.0 && max > 0.0
    ensures ClosedFormHolds(initial, f, max) <==> f >= 1.0 || initial * f <= max
  {
    if f >= 1.0 {
      forall k: nat | k >= 1
        ensures Iterated(Backoff(f, max), initial, k) == MinReal(Uncapped(initial, f, k), max)
      {
        BackoffClosedForm(initial, f, max, k);
      }
    } else if initial * f <= max {
      forall k: nat | k >= 1
        ensures Iterated(Backoff(f, max), initial, k) == MinReal(Uncapped(initial, f, k), max)
      {
        NeverCapped(initial, f, max, k);
      }
    } else {
      CappedOnce(initial, f, max);
    }
  }

  /** A shrinking delay whose first step is below the cap stays below it. */
  lemma {:induction false} NeverCapped(initial: real, f: real, max: real, k: nat)
    requires 0.0 <= f < 1.0 && initial >= 0.0 && initial * f <= max && k >= 1
    ensures Below(initial, f, max, k)
  {
    if k == 1 {
      Shrinks(initial, f);
      UncappedStep(initial, f, 0);
      IteratedStep(initial, f, max, 0);
    } else {
      NeverCapped(initial, f, max, k - 1);
      StaysBelow(initial, f, max, k - 1);
    }
  }

  predicate Below(initial: real, f: real, max: real, k: nat) {
    0.0 <= Uncapped(initial, f, k) <= max && Iterated(Backoff(f, max), initial, k) == Uncapped(initial, f, k)
  }

  lemma StaysBelow(initial: real, f: real, max: real, k: nat)
    requires 0.0 <= f < 1.0 && Below(initial, f, max, k)
    ensures Below(initial, f, max, k + 1)
  {
    var d := Uncapped(initial, f, k);
    ShrinksBelow(d, f, max);
    UncappedStep(initial, f, k);
    IteratedStep(initial, f, max, k);
  }

  lemma ShrinksBelow(d: real, f: real, max: real)
    requires 0.0 <= d <= max && 0.0 <= f < 1.0
    ensures 0.0 <= d * f <= max && NextDelay(f, max, d) == d * f
  {
    Shrinks(d, f);
  }

  lemma Shrinks(d: real, f: real)
    requires d >= 0.0 && 0.0 <= f <= 1.0
    ensures 0.0 <= d * f <= d
  {
    MulMonotone(f, 1.0, d);
  }

  /** Once a shrinking delay has been capped, the next one is too short. */
  lemma CappedOnce(initial: real, f: real, max: real)
    requires 0.0 <= f < 1.0 && initial >= 0.0 && max > 0.0 && initial * f > max
    ensures Iterated(Backoff(f, max), initial, 2) != MinReal(Uncapped(initial, f, 2), max)
  {
    IteratedStep(initial, f, max, 0);
    IteratedStep(initial, f, max, 1);
    UncappedStep(initial, f, 0);
    UncappedStep(initial, f, 1);
    assert Iterated(Backoff(f, max), initial, 1) == max;
    assert Uncapped(initial, f, 1) == initial * f;
    assert f > 0.0;
    StrictlyLess(max, initial * f, f);
    StrictlyLess(f, 1.0, max);
  }

  lemma StrictlyLess(a: real, b: real, f: real)
    requires a < b && f > 0.0
    ensures a * f < b * f
  {
  }

  /** With a shrinking factor the closed form can fail: the cap of an early delay carries over. */
  lemma ShrinkingFactorDiffers()
    ensures Iterated(Backoff(0.5, 10.0), 100.0, 2) != MinReal(Uncapped(100.0, 0.5, 2), 10.0)
  {
    assert Iterated(Backoff(0.5, 10.0), 100.0, 1) == 10.0;
    assert Uncapped(100.0, 0.5, 1) == 50.0;
  }

  /** One fresh run per attempt, stopping at success, at the last attempt, or when the error
      is not to be retried; `next` updates the delay. */
  method RetryLoop(succeeds: nat -> bool, retryable: nat -> bool, maxRetries: nat,
                   initialDelay: real, next: real -> real)
    returns (returned: bool, runs: nat, sleeps: seq<real>)
    ensures 1 <= runs <= maxRetries + 1 && |sleeps| == runs - 1
    ensures returned <==> succeeds(runs - 1)
    ensures forall i :: 0 <= i < runs - 1 ==> !succeeds(i) && retryable(i)
    ensures !returned ==> runs == maxRetries + 1 || !retryable(runs - 1)
    ensures forall i :: 0 <= i < |sleeps| ==> sleeps[i] == Iterated(next, initialDelay, i)
  {
    sleeps := [];
    var delay := initialDelay;
    var attempt := 0;
    while attempt <= maxRetries
      invariant attempt <= maxRetries && |sleeps| == attempt
      invariant delay == Iterated(next, initialDelay, attempt)
      invariant forall i :: 0 <= i < attempt ==> !succeeds(i) && retryable(i)
      invariant forall i :: 0 <= i < attempt ==> sleeps[i] == Iterated(next, initialDelay, i)
      decreases maxRetries - attempt
    {
      if succeeds(attempt) {
        return true, attempt + 1, sleeps;
      }
      if attempt == maxRetries || !retryable(attempt) {
        break;
      }
      sleeps := sleeps + [delay];
      delay := next(delay);
      attempt := attempt + 1;
    }
    return false, attempt + 1, sleeps;
  }

  method ExecuteTransactionWithRetry(succeeds: nat -> bool, retryable: nat -> bool, maxRetries: nat,
                                     initialDelay: real, maxDelay: real, backoffFactor: real)
    returns (returned: bool, runs: nat, sleeps: seq<real>)
    ensures 1 <= runs <= maxRetries + 1 && |sleeps| == runs - 1
    ensures returned <==> succeeds(runs - 1)
    ensures forall i :: 0 <= i < runs - 1 ==> !succeeds(i) && retryable(i)
    ensures !returned ==> runs == maxRetries + 1 || !retryable(runs - 1)
    ensures forall i :: 0 <= i < |sleeps| ==>
              sleeps[i] == Iterated(Backoff(backoffFactor, maxDelay), initialDelay, i)
  {
    var next := Backoff(backoffFactor, maxDelay);
    returned, runs, sleeps := RetryLoop(succeeds, retryable, maxRetries, initialDelay, next);
  }

  // ----- the batch executor

  datatype BatchEntry = Result(hash: int) | Failure(message: int) | CancelledByFailure

  predicate IsError(e: BatchEntry) {
    !e.Result?
  }

  function Errors(s: seq<BatchEntry>): nat {
    if s == [] then 0 else Errors(s[..|s| - 1]) + if IsError(s[|s| - 1]) then 1 else 0
  }

  /** What one operation adds: its entry, and a second one when the progress callback throws
      on its success, since the same catch clause then reports an error. */
  datatype Turn = Turn(entries: seq<BatchEntry>, calls: nat, failed: bool, rejected: bool)

  /** `progress(k)` is the error that call `k` of the callback throws, if it throws. */
  function TurnOf(outcome: BatchEntry, progress: nat -> Option<int>, calls: nat): Turn {
    if !outcome.Result? then Turn([outcome], calls + 1, true, progress(calls).Some?)
    else
      match progress(calls)
      case None => Turn([outcome], calls + 1, false, false)
      case Some(e) => Turn([outcome, Failure(e)], calls + 2, true, progress(calls + 1).Some?)
  }

  function Cancelled(n: nat): seq<BatchEntry> {
    seq(n, _ => CancelledByFailure)
  }

  function Prepend(front: seq<BatchEntry>, rest: Option<seq<BatchEntry>>): Option<seq<BatchEntry>> {
    if rest.None? then None else Some(front + rest.value)
  }

  /** The entries of a batch; a callback that throws inside the catch clause rejects the call. */
  function Sequentially(outcomes: seq<BatchEntry>, failFast: bool, progress: nat -> Option<int>, calls: nat):
    Option<seq<BatchEntry>>
  {
    if outcomes == [] then Some([])
    else
      var turn := TurnOf(outcomes[0], progress, calls);
      if turn.rejected then None
      else if turn.failed && failFast then Some(turn.entries + Cancelled(|outcomes| - 1))
      else Prepend(turn.entries, Sequentially(outcomes[1..], failFast, progress, turn.calls))
  }

  datatype BatchResult = BatchResult(
    results: seq<BatchEntry>, successCount: nat, errorCount: nat, allSuccessful: bool)

  method ExecuteSequentially(outcomes: seq<BatchEntry>, failFast: bool, progress: nat -> Option<int>)
    returns (r: Option<BatchResult>)
    ensures r.Some? <==> Sequentially(outcomes, failFast, progress, 0).Some?
    ensures r.Some? ==>
              var b := r.value;
              Some(b.results) == Sequentially(outcomes, failFast, progress, 0) &&
              b.errorCount == Errors(b.results) && b.successCount + b.errorCount == |b.results| &&
              (b.allSuccessful <==> forall i :: 0 <= i < |b.results| ==> !IsError(b.results[i]))
  {
    ghost var all := Sequentially(outcomes, failFast, progress, 0);
    ghost var stopped := false;
    var results: seq<BatchEntry>, calls, i := [], 0, 0;
    assert outcomes[0..] == outcomes;
    PrependNothing(all);
    while i < |outcomes|
      invariant 0 <= i <= |outcomes| && !stopped
      invariant all == Prepend(results, Sequentially(outcomes[i..], failFast, progress, calls))
    {
      var outcome := outcomes[i];
      ghost var turn, before := TurnOf(outcome, progress, calls), results;
      TurnStep(results, outcomes, i, failFast, progress, calls);
      var caught := !outcome.Result?;
      results := results + [outcome];
      if outcome.Result? {
        var thrown := progress(calls);
        calls := calls + 1;
        if thrown.Some? {
          results := results + [Failure(thrown.value)];
          caught := true;
        }
      }
      assert results == before + turn.entries;
      if caught {
        if progress(calls).Some? {
          return None;
        }
        calls := calls + 1;
        if failFast {
          ghost var done := results;
          for j := i + 1 to |outcomes|
            invariant results == done + Cancelled(j - i - 1)
          {
            assert done + Cancelled(j - i) == done + Cancelled(j - i - 1) + [CancelledByFailure];
            results := results + [CancelledByFailure];
          }
          stopped := true;
          break;
        }
      }
      i := i + 1;
    }
    assert !stopped ==> outcomes[i..] == [] && results + [] == results;
    var errorCount := CountErrors(results);
    NoErrors(results);
    r := Some(BatchResult(results, |results| - errorCount, errorCount, errorCount == 0));
  }

  /** One turn: what is collected and what the operations from `i` on give. */
  lemma TurnStep(results: seq<BatchEntry>, outcomes: seq<BatchEntry>, i: nat, failFast: bool,
                 progress: nat -> Option<int>, calls: nat)
    requires i < |outcomes|
    ensures var turn := TurnOf(outcomes[i], progress, calls);
            Prepend(results, Sequentially(outcomes[i..], failFast, progress, calls)) ==
            if turn.rejected then None
            else if turn.failed && failFast then Some((results + turn.entries) + Cancelled(|outcomes| - i - 1))
            else Prepend(results + turn.entries, Sequentially(outcomes[i + 1..], failFast, progress, turn.calls))
  {
    var turn := TurnOf(outcomes[i], progress, calls);
    assert outcomes[i..][0] == outcomes[i] && outcomes[i..][1..] == outcomes[i + 1..];
    Associate(results, turn.entries, Cancelled(|outcomes| - i - 1));
    PrependTwice(results, turn.entries, Sequentially(outcomes[i + 1..], failFast, progress, turn.calls));
  }

  lemma PrependNothing(rest: Option<seq<BatchEntry>>)
    ensures Prepend([], rest) == rest
  {
    assert rest.Some? ==> [] + rest.value == rest.value;
  }

  lemma PrependTwice(a: seq<BatchEntry>, b: seq<BatchEntry>, rest: Option<seq<BatchEntry>>)
    ensures Prepend(a, Prepend(b, rest)) == Prepend(a + b, rest)
  {
    if rest.Some? {
      Associate(a, b, rest.value);
    }
  }

  method CountErrors(s: seq<BatchEntry>) returns (n: nat)
    ensures n == Errors(s) && n <= |s|
  {
    n := 0;
    for i := 0 to |s|
      invariant n == Errors(s[..i]) && n <= i
    {
      assert s[..i + 1][..i] == s[..i];
      if IsError(s[i]) {
        n := n + 1;
      }
    }
    assert s[..|s|] == s;
  }

  lemma {:induction false} NoErrors(s: seq<BatchEntry>)
    ensures Errors(s) == 0 <==> forall i :: 0 <= i < |s| ==> !IsError(s[i])
  {
    if s != [] {
      NoErrors(s[..|s| - 1]);
    }
  }

  /** How many operations run when the callback never throws. */
  function Executed(outcomes: seq<BatchEntry>, failFast: bool): (n: nat)
    ensures n <= |outcomes|
  {
    if outcomes == [] then 0
    else if failFast && IsError(outcomes[0]) then 1
    else 1 + Executed(outcomes[1..], failFast)
  }

  predicate CallbackReturns(progress: nat -> Option<int>, calls: nat, n: nat) {
    forall k :: calls <= k < calls + n ==> progress(k).None?
  }

  /** A batch never has fewer entries than operations. It has exactly one entry for each
      when and only when the callback returns for every operation that is run. */
  lemma {:induction false} OneEntryEachExactly(outcomes: seq<BatchEntry>, failFast: bool, progress: nat -> Option<int>,
                                               calls: nat)
    ensures var r := Sequentially(outcomes, failFast, progress, calls);
            (r.Some? ==> |r.value| >= |outcomes|) &&
            (r.Some? && |r.value| == |outcomes| <==>
             CallbackReturns(progress, calls, Executed(outcomes, failFast)))
    decreases |outcomes|
  {
    if outcomes != [] {
      var turn := TurnOf(outcomes[0], progress, calls);
      OneEntryEachExactly(outcomes[1..], failFast, progress, turn.calls);
      if progress(calls).None? {
        assert turn.calls == calls + 1;
      }
    }
  }

  /** Then the entries are the outcomes in their places; with failFast those behind the first
      failure say that they were cancelled. */
  lemma {:induction false} EntriesInPlace(outcomes: seq<BatchEntry>, failFast: bool, progress: nat -> Option<int>,
                                          calls: nat)
    requires CallbackReturns(progress, calls, Executed(outcomes, failFast))
    ensures var n := Executed(outcomes, failFast);
            Sequentially(outcomes, failFast, progress, calls) == Some(outcomes[..n] + Cancelled(|outcomes| - n)) &&
            (n < |outcomes| ==> failFast && n > 0 && IsError(outcomes[n - 1])) &&
            (failFast ==> forall i :: 0 <= i < n - 1 ==> !IsError(outcomes[i]))
    decreases |outcomes|
  {
    if outcomes == [] {
      assert outcomes[..0] + Cancelled(0) == [];
    } else {
      assert progress(calls).None?;
      var n := Executed(outcomes, failFast);
      if failFast && IsError(outcomes[0]) {
        assert outcomes[..1] == [outcomes[0]];
      } else {
        EntriesInPlace(outcomes[1..], failFast, progress, calls + 1);
        assert outcomes[..n] == [outcomes[0]] + outcomes[1..][..n - 1];
        Associate([outcomes[0]], outcomes[1..][..n - 1], Cancelled(|outcomes| - n));
      }
    }
  }

  /** One successful operation whose callback throws once: two entries, one of them an error. */
  lemma CallbackDoublesEntry()
    ensures var throwsOnce: nat -> Option<int> := k => if k == 0 then Some(9) else None;
            Sequentially([Result(7)], false, throwsOnce, 0) == Some([Result(7), Failure(9)])
  {
    var throwsOnce: nat -> Option<int> := k => if k == 0 then Some(9) else None;
    var turn := TurnOf(Result(7), throwsOnce, 0);
    assert turn == Turn([Result(7), Failure(9)], 2, true, false);
    assert [Result(7)][1..] == [] && turn.entries + [] == turn.entries;
  }

  /** The callback and the entries, operation by operation: a success whose callback throws
      is reported twice, and a callback that throws in the catch clause rejects the batch. */
  lemma CallbackCases(outcome: BatchEntry, rest: seq<BatchEntry>, failFast: bool, progress: nat -> Option<int>,
                      calls: nat)
    ensures var all := Sequentially([outcome] + rest, failFast, progress, calls);
            var first, second := progress(calls), progress(calls + 1);
            var cancelled := seq(|rest|, _ => CancelledByFailure);
            && (outcome.Result? && first == None ==>
                  all == Prepend([outcome], Sequentially(rest, failFast, progress, calls + 1)))
            && (outcome.Result? && first.Some? && second.Some? ==> all == None)
            && (outcome.Result? && first.Some? && second == None ==>
                  all == if failFast then Some([outcome, Failure(first.value)] + cancelled)
                         else
                           Prepend([outcome, Failure(first.value)], Sequentially(rest, failFast, progress, calls + 2)))
            && (!outcome.Result? && first.Some? ==> all == None)
            && (!outcome.Result? && first == None ==>
                  all == if failFast then Some([outcome] + cancelled)
                         else Prepend([outcome], Sequentially(rest, failFast, progress, calls + 1)))
  {
    assert ([outcome] + rest)[1..] == rest;
  }
}
