/** What a transaction tracker shows, stage by stage, over every history of a run. */
module Timeline {
  import opened Text
  import opened Tracker

  type Steps = seq<Step>

  /** Stages end with one kind of step; what else happens before it is left open. */
  predicate NoAbort(steps: Steps) {
    forall i :: 0 <= i < |steps| ==> steps[i] != Abort
  }

  predicate NoOperation(steps: Steps) {
    forall i :: 0 <= i < |steps| ==> !steps[i].OperationSettles?
  }

  predicate NoContinuation(steps: Steps) {
    forall i :: 0 <= i < |steps| ==> !steps[i].AfterOperation?
  }

  predicate NoReceipt(steps: Steps) {
    forall i :: 0 <= i < |steps| ==> !steps[i].ReceiptSettles?
  }

  predicate NoEnd(steps: Steps) {
    forall i :: 0 <= i < |steps| ==> !steps[i].AfterRace?
  }

  lemma {:induction false} RunAppend(m: Machine, a: Steps, b: Steps)
    ensures Run(m, a + b) == Run(Run(m, a), b)
  {
    if b == [] {
      assert a + b == a;
    } else {
      var n := |b| - 1;
      RunAppend(m, a, b[..n]);
      assert (a + b)[..|a + b| - 1] == a + b[..n];
    }
  }

  lemma RunOne(m: Machine, s: Step)
    ensures Run(m, [s]) == Next(m, s)
  {
    assert [s][..0] == [];
  }

  // ----- from the start to the operation's result

  const SUBMITTING: Machine := Machine(Submitting, false, NoTimer, Some(false), AwaitingHash)

  lemma {:induction false} StaysSubmitting(ok: Option<bool>, steps: Steps)
    requires NoAbort(steps) && (if ok.None? then NoOperation(steps) else NoContinuation(steps))
    ensures var m := if ok.None? then SUBMITTING else SUBMITTING.(phase := HashSettled(ok.value));
            Run(m, steps) == m
  {
    if steps != [] {
      StaysSubmitting(ok, steps[..|steps| - 1]);
    }
  }

  /** A run with an aborted signal fails at once; any other is submitting until its
      operation has settled, whatever else happens. */
  lemma StartStage(before: Steps, during: Steps)
    requires Rests(Run(INITIAL, before)) && NoAbort(during) && NoOperation(during)
    ensures Run(INITIAL, before + ([Start(false)] + during)) ==
            Machine(Submitting, false, NoTimer, Some(false), AwaitingHash)
    ensures Run(INITIAL, before + [Start(true)]) == Machine(Error, false, NoTimer, Some(false), Settled(false))
  {
    RunAppend(INITIAL, before, [Start(false)] + during);
    RunAppend(Run(INITIAL, before), [Start(false)], during);
    RunOne(Run(INITIAL, before), Start(false));
    StaysSubmitting(None, during);
    RunAppend(INITIAL, before, [Start(true)]);
    RunOne(Run(INITIAL, before), Start(true));
  }

  /** The steps of a run up to the point where its operation has settled. */
  function UntilHash(during: Steps, ok: bool, after: Steps): Steps {
    [Start(false)] + (during + ([OperationSettles(ok)] + after))
  }

  predicate ReachesHash(before: Steps, during: Steps, after: Steps) {
    Rests(Run(INITIAL, before)) && NoAbort(during) && NoOperation(during) && NoAbort(after) && NoContinuation(after)
  }

  lemma HashStage(before: Steps, during: Steps, ok: bool, after: Steps)
    requires ReachesHash(before, during, after)
    ensures Run(INITIAL, before + UntilHash(during, ok, after)) ==
            Machine(Submitting, false, NoTimer, Some(false), HashSettled(ok))
  {
    StartStage(before, during);
    Associate([Start(false)], during, [OperationSettles(ok)] + after);
    Associate(before, [Start(false)] + during, [OperationSettles(ok)] + after);
    RunAppend(INITIAL, before + ([Start(false)] + during), [OperationSettles(ok)] + after);
    RunAppend(SUBMITTING, [OperationSettles(ok)], after);
    RunOne(SUBMITTING, OperationSettles(ok));
    StaysSubmitting(Some(ok), after);
  }

  // ----- waiting for the receipt

  /** The timer while the receipt is awaited. */
  function TimerAfter(timeout: nat, steps: Steps): Timer {
    if timeout == 0 then NoTimer else if TimerFires in steps then Fired else Armed
  }

  /** The status while the receipt is awaited and afterwards, until the run goes on: an abort
      from onSubmitted shows as an error, otherwise the timer decides. */
  function WaitingState(aborts: bool, timeout: nat, steps: Steps): State {
    if aborts then Error else if timeout > 0 && TimerFires in steps then Timeout else Pending
  }

  function Waiting(aborts: bool, timeout: nat, steps: Steps, phase: Phase): Machine {
    Machine(WaitingState(aborts, timeout, steps), aborts, TimerAfter(timeout, steps), Some(aborts), phase)
  }

  lemma {:induction false} StaysWaiting(aborts: bool, timeout: nat, past: Steps, race: Option<Race>, steps: Steps)
    requires NoAbort(steps) && (if race.None? then NoReceipt(steps) else NoEnd(steps))
    ensures var phase := if race.None? then AwaitingReceipt(!aborts) else RaceSettled(race.value);
            Run(Waiting(aborts, timeout, past, phase), steps) == Waiting(aborts, timeout, past + steps, phase)
  {
    if steps == [] {
      assert past + steps == past;
    } else {
      var n := |steps| - 1;
      StaysWaiting(aborts, timeout, past, race, steps[..n]);
      assert past + steps == (past + steps[..n]) + [steps[n]];
    }
  }

  function UntilReceipt(hash: Steps, cb: Callback, timeout: nat, waiting: Steps): Steps {
    hash + ([AfterOperation(cb, timeout)] + waiting)
  }

  /** A failed operation or a throwing callback ends the run with an error; an onSubmitted
      that aborts without throwing leaves it waiting, deaf, and showing an error. */
  lemma SubmittedFails(before: Steps, during: Steps, ok: bool, after: Steps, cb: Callback, timeout: nat)
    requires ReachesHash(before, during, after) && (!ok || cb.throws)
    ensures Run(INITIAL, (before + UntilHash(during, ok, after)) + [AfterOperation(cb, timeout)]) ==
            Machine(Error, ok && cb.aborts, NoTimer, Some(ok && cb.aborts), Settled(false))
  {
    HashStage(before, during, ok, after);
    RunAppend(INITIAL, before + UntilHash(during, ok, after), [AfterOperation(cb, timeout)]);
    RunOne(SUBMITTING.(phase := HashSettled(ok)), AfterOperation(cb, timeout));
  }

  /** While the receipt is awaited the tracker shows a timeout exactly when the run has one
      and its timer has fired, and is pending before. */
  lemma WaitingStage(before: Steps, during: Steps, after: Steps, cb: Callback, timeout: nat, waiting: Steps)
    requires ReachesHash(before, during, after) && !cb.throws && NoAbort(waiting) && NoReceipt(waiting)
    ensures var m := Run(INITIAL, UntilReceipt(before + UntilHash(during, true, after), cb, timeout, waiting));
            m.phase == AwaitingReceipt(!cb.aborts) && m.aborted == cb.aborts && m.controller == Some(cb.aborts) &&
            m.state == (if cb.aborts then Error
                        else if timeout > 0 && TimerFires in waiting then Timeout
                        else Pending) &&
            m.timer == (if timeout == 0 then NoTimer else if TimerFires in waiting then Fired else Armed)
  {
    WaitsFor(before, during, after, cb, timeout, waiting);
  }

  lemma WaitsFor(before: Steps, during: Steps, after: Steps, cb: Callback, timeout: nat, waiting: Steps)
    requires ReachesHash(before, during, after) && !cb.throws && NoAbort(waiting) && NoReceipt(waiting)
    ensures Run(INITIAL, UntilReceipt(before + UntilHash(during, true, after), cb, timeout, waiting)) ==
            Waiting(cb.aborts, timeout, waiting, AwaitingReceipt(!cb.aborts))
  {
    var hash := before + UntilHash(during, true, after);
    var m := SUBMITTING.(phase := HashSettled(true));
    HashStage(before, during, true, after);
    RunAppend(INITIAL, hash, [AfterOperation(cb, timeout)] + waiting);
    RunAppend(m, [AfterOperation(cb, timeout)], waiting);
    RunOne(m, AfterOperation(cb, timeout));
    StaysWaiting(cb.aborts, timeout, [], None, waiting);
    assert [] + waiting == waiting;
  }

  // ----- the end

  function UntilEnd(receipt: Steps, race: Race, settling: Steps, cb: Callback): Steps {
    receipt + ([ReceiptSettles(race)] + (settling + [AfterRace(cb)]))
  }

  /** The end of a run whose receipt came in: execute returns for a confirmed receipt and a
      callback that does not throw, and the status says so unless that callback aborted. */
  lemma EndStage(before: Steps, during: Steps, after: Steps, submitted: Callback, timeout: nat, waiting: Steps,
                 race: Race, settling: Steps, confirmed: Callback)
    requires ReachesHash(before, during, after) && !submitted.throws && NoAbort(waiting) && NoReceipt(waiting)
    requires NoAbort(settling) && NoEnd(settling)
    ensures var receipt := UntilReceipt(before + UntilHash(during, true, after), submitted, timeout, waiting);
            var m := Run(INITIAL, UntilEnd(receipt, race, settling, confirmed));
            m.phase == Settled(race == Confirmed && !confirmed.throws) &&
            m.state == (if race == Confirmed && !confirmed.throws && !confirmed.aborts then Success else Error) &&
            m.aborted == (submitted.aborts || (race == Confirmed && confirmed.aborts)) &&
            (race != Rejected ==> m.timer == NoTimer)
  {
    var receipt := UntilReceipt(before + UntilHash(during, true, after), submitted, timeout, waiting);
    WaitsFor(before, during, after, submitted, timeout, waiting);
    var m := Waiting(submitted.aborts, timeout, waiting, AwaitingReceipt(!submitted.aborts));
    var n := Waiting(submitted.aborts, timeout, waiting, RaceSettled(race));
    RunAppend(INITIAL, receipt, [ReceiptSettles(race)] + (settling + [AfterRace(confirmed)]));
    RunAppend(m, [ReceiptSettles(race)], settling + [AfterRace(confirmed)]);
    RunOne(m, ReceiptSettles(race));
    RunAppend(n, settling, [AfterRace(confirmed)]);
    StaysWaiting(submitted.aborts, timeout, waiting, Some(race), settling);
    RunOne(Waiting(submitted.aborts, timeout, waiting + settling, RaceSettled(race)), AfterRace(confirmed));
  }

  // ----- abort and reset

  /** abort, at any time: the status is an error marked aborted, the timer is gone, a
      controller is aborted, and a race that listens is lost. */
  lemma AbortStage(steps: Steps)
    ensures var m, n := Run(INITIAL, steps), Run(INITIAL, steps + [Abort]);
            n.state == Error && n.aborted && n.timer == NoTimer &&
            n.controller.Some? == m.controller.Some? && n.controller != Some(false) &&
            n.phase == if m.phase == AwaitingReceipt(true) then RaceSettled(Rejected) else m.phase
  {
    RunAppend(INITIAL, steps, [Abort]);
    RunOne(Run(INITIAL, steps), Abort);
    RunConsistent(INITIAL, steps);
  }

  /** An abort before the operation is continued makes the continuation throw. */
  lemma AbortBeforeHash(before: Steps, during: Steps, ok: bool, after: Steps, cb: Callback, timeout: nat)
    requires ReachesHash(before, during, after)
    ensures var steps := (before + UntilHash(during, ok, after)) + [Abort, AfterOperation(cb, timeout)];
            Run(INITIAL, steps) == Machine(Error, true, NoTimer, Some(true), Settled(false))
  {
    var hash, m := before + UntilHash(during, ok, after), SUBMITTING.(phase := HashSettled(ok));
    HashStage(before, during, ok, after);
    RunAppend(INITIAL, hash, [Abort, AfterOperation(cb, timeout)]);
    assert [Abort, AfterOperation(cb, timeout)] == [Abort] + [AfterOperation(cb, timeout)];
    RunAppend(m, [Abort], [AfterOperation(cb, timeout)]);
    RunOne(m, Abort);
    RunOne(Next(m, Abort), AfterOperation(cb, timeout));
  }

  /** reset outside a run: the status of a new tracker. */
  lemma ResetStage(steps: Steps)
    requires Rests(Run(INITIAL, steps))
    ensures Run(INITIAL, steps + [Reset]) == Machine(Idle, false, NoTimer, None, Run(INITIAL, steps).phase)
  {
    RunAppend(INITIAL, steps, [Reset]);
    RunOne(Run(INITIAL, steps), Reset);
  }
}
