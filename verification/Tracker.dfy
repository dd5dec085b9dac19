/** The transaction tracker, cut at its awaits into steps that interleave with a timer and abort calls. */
module Tracker {
  import opened Text

  datatype State = Idle | Submitting | Pending | Success | Error | Timeout

  datatype Timer = NoTimer | Armed | Fired

  /** How the race between the receipt and the abort listener came out. */
  datatype Race = Confirmed | FailedOnChain | Rejected

  /** Where the running execute call is suspended, or how it ended. */
  datatype Phase =
    | NotRunning
    | AwaitingHash
    | HashSettled(ok: bool)
    | AwaitingReceipt(listening: bool)
    | RaceSettled(race: Race)
    | Settled(returned: bool)

  /** What a user callback does while it runs: it may abort the tracker and it may throw. */
  datatype Callback = Callback(aborts: bool, throws: bool)

  datatype Step =
    | Start(signalAborted: bool)
    | OperationSettles(ok: bool)
    | AfterOperation(onSubmitted: Callback, timeout: nat)
    | ReceiptSettles(race: Race)
    | AfterRace(onConfirmed: Callback)
    | TimerFires
    | Abort
    | Reset

  /** `controller` is the abort controller, if any, with its aborted flag. */
  datatype Machine = Machine(state: State, aborted: bool, timer: Timer, controller: Option<bool>, phase: Phase)

  const INITIAL: Machine := Machine(Idle, false, NoTimer, None, NotRunning)

  // ----- the steps as functions

  function Aborting(m: Machine): Machine {
    m.(controller := if m.controller.Some? then Some(true) else None,
       timer := NoTimer, state := Error, aborted := true,
       phase := if m.controller.Some? && m.phase == AwaitingReceipt(true) then RaceSettled(Rejected) else m.phase)
  }

  function Thrown(m: Machine): Machine {
    m.(state := Error, phase := Settled(false))
  }

  function Starting(m: Machine, signalAborted: bool): Machine {
    var r := Machine(Idle, false, NoTimer, Some(false), AwaitingHash);
    if signalAborted then Thrown(r) else r.(state := Submitting)
  }

  function ContinueOperation(m: Machine, ok: bool, onSubmitted: Callback, timeout: nat): Machine {
    if !ok || m.controller == Some(true) then Thrown(m)
    else
      var pending := m.(state := Pending);
      var called := if onSubmitted.aborts then Aborting(pending) else pending;
      if onSubmitted.throws then Thrown(called)
      else called.(timer := if timeout > 0 then Armed else called.timer,
                   phase := AwaitingReceipt(called.controller == Some(false)))
  }

  function ContinueRace(m: Machine, race: Race, onConfirmed: Callback): Machine {
    if race == Rejected then Thrown(m)
    else
      var cleared := m.(timer := NoTimer);
      if race == FailedOnChain then Thrown(cleared)
      else
        var success := cleared.(state := Success);
        var called := if onConfirmed.aborts then Aborting(success) else success;
        if onConfirmed.throws then Thrown(called) else called.(phase := Settled(true))
  }

  /** A step that is not enabled changes nothing. */
  function Next(m: Machine, s: Step): Machine {
    match s
    case Start(signalAborted) => if m.phase.NotRunning? || m.phase.Settled? then Starting(m, signalAborted) else m
    case OperationSettles(ok) => if m.phase.AwaitingHash? then m.(phase := HashSettled(ok)) else m
    case AfterOperation(cb, timeout) =>
      if m.phase.HashSettled? then ContinueOperation(m, m.phase.ok, cb, timeout) else m
    case ReceiptSettles(race) => if m.phase.AwaitingReceipt? then m.(phase := RaceSettled(race)) else m
    case AfterRace(cb) => if m.phase.RaceSettled? then ContinueRace(m, m.phase.race, cb) else m
    case TimerFires =>
      if m.timer != Armed then m
      else if m.state == Pending && m.controller != Some(true) then m.(timer := Fired, state := Timeout)
      else m.(timer := Fired)
    case Abort => Aborting(m)
    case Reset =>
      if m.phase.NotRunning? || m.phase.Settled?
      then m.(state := Idle, aborted := false, timer := NoTimer, controller := None) else m
  }

  function Run(m: Machine, steps: seq<Step>): Machine {
    if steps == [] then m else Next(Run(m, steps[..|steps| - 1]), steps[|steps| - 1])
  }

  // ----- the closure and its functions

  class TransactionTracker {
    var state: State
    var aborted: bool
    var timeoutHandle: Timer
    var abortController: Option<bool>
    var phase: Phase

    function View(): Machine
      reads this
    {
      Machine(state, aborted, timeoutHandle, abortController, phase)
    }

    constructor ()
      ensures View() == INITIAL
    {
      state, aborted, timeoutHandle, abortController, phase := Idle, false, NoTimer, None, NotRunning;
    }

    method ResetStatus()
      modifies this
      ensures View() == old(View()).(state := Idle, aborted := false, timer := NoTimer, controller := None)
    {
      timeoutHandle := NoTimer;
      abortController := None;
      state, aborted := Idle, false;
    }

    method AbortNow()
      modifies this
      ensures View() == Next(old(View()), Abort)
    {
      if abortController.Some? {
        abortController := Some(true);
        if phase == AwaitingReceipt(true) {
          phase := RaceSettled(Rejected);
        }
      }
      timeoutHandle := NoTimer;
      state, aborted := Error, true;
    }

    method Throw()
      modifies this
      ensures View() == Thrown(old(View()))
    {
      state := Error;
      phase := Settled(false);
    }

    /** execute up to its first await. */
    method Execute(signalAborted: bool)
      requires phase.NotRunning? || phase.Settled?
      modifies this
      ensures View() == Next(old(View()), Start(signalAborted))
    {
      ResetStatus();
      abortController := Some(false);
      phase := AwaitingHash;
      if signalAborted {
        Throw();
        return;
      }
      state, aborted := Submitting, false;
    }

    /** execute from the settled operation to the wait for the receipt. */
    method ContinueAfterOperation(onSubmitted: Callback, timeout: nat)
      requires phase.HashSettled?
      modifies this
      ensures View() == Next(old(View()), AfterOperation(onSubmitted, timeout))
    {
      if !phase.ok || abortController == Some(true) {
        Throw();
        return;
      }
      state := Pending;
      if onSubmitted.aborts {
        AbortNow();
      }
      if onSubmitted.throws {
        Throw();
        return;
      }
      if timeout > 0 {
        timeoutHandle := Armed;
      }
      phase := AwaitingReceipt(abortController == Some(false));
    }

    /** execute from the settled race to its end. */
    method ContinueAfterRace(onConfirmed: Callback)
      requires phase.RaceSettled?
      modifies this
      ensures View() == Next(old(View()), AfterRace(onConfirmed))
    {
      if phase.race == Rejected {
        Throw();
        return;
      }
      timeoutHandle := NoTimer;
      if phase.race == FailedOnChain {
        state := Error;
        Throw();
        return;
      }
      state := Success;
      if onConfirmed.aborts {
        AbortNow();
      }
      if onConfirmed.throws {
        Throw();
        return;
      }
      phase := Settled(true);
    }

    method TimeoutCallback()
      requires timeoutHandle == Armed
      modifies this
      ensures View() == Next(old(View()), TimerFires)
    {
      timeoutHandle := Fired;
      if state == Pending && abortController != Some(true) {
        state := Timeout;
      }
    }
  }

  // ----- what every step keeps

  /** The state a tracker shows in each phase. */
  predicate Consistent(m: Machine) {
    && (m.phase.AwaitingHash? || m.phase.HashSettled? || m.phase.AwaitingReceipt? || m.phase.RaceSettled? ==>
          m.controller.Some?)
    && (m.phase == AwaitingReceipt(true) ==> m.controller == Some(false) && m.state in {Pending, Timeout})
    && (m.state == Timeout ==> m.phase.AwaitingReceipt? || m.phase.RaceSettled?)
    && (m.state == Pending ==> m.phase.AwaitingReceipt? || m.phase.RaceSettled?)
    && (m.state == Submitting ==> m.phase.AwaitingHash? || m.phase.HashSettled?)
    && (m.state == Success ==> m.phase == Settled(true))
    && (m.phase == Settled(true) ==> m.state in {Success, Error, Idle})
    && (m.phase == Settled(false) ==> m.state in {Error, Idle})
  }

  lemma NextConsistent(m: Machine, s: Step)
    requires Consistent(m)
    ensures Consistent(Next(m, s))
  {
  }

  /** Every reachable machine is consistent, whatever happened before and in whatever order. */
  lemma {:induction false} RunConsistent(m: Machine, steps: seq<Step>)
    requires Consistent(m)
    ensures Consistent(Run(m, steps))
  {
    if steps != [] {
      RunConsistent(m, steps[..|steps| - 1]);
      NextConsistent(Run(m, steps[..|steps| - 1]), steps[|steps| - 1]);
    }
  }

  // ----- the state a settled run shows

  /** A step settles a run when it starts or continues one and the run has then ended. */
  predicate Settles(m: Machine, s: Step) {
    (!m.phase.Settled? || s.Start?) && Next(m, s).phase.Settled?
  }

  /** Success for a run that returned, unless its own onConfirmed callback aborted; else error. */
  function FinalState(returned: bool, s: Step): State {
    if returned && !(s.AfterRace? && s.onConfirmed.aborts) then Success else Error
  }

  /** After settlement an abort shows an error and a reset clears the state; nothing else changes it. */
  function Afterwards(settled: State, after: seq<Step>): State {
    if after == [] then settled
    else
      match after[|after| - 1]
      case Abort => Error
      case Reset => Idle
      case _ => Afterwards(settled, after[..|after| - 1])
  }

  /** Step `k` settled the last run of a history. */
  predicate SettledBy(steps: seq<Step>, k: nat) {
    k < |steps| && Settles(Run(INITIAL, steps[..k]), steps[k]) && forall i :: k < i < |steps| ==> !steps[i].Start?
  }

  /** The step that ends a run leaves the tracker in success exactly when execute returns,
      and in error exactly when it throws, unless the onConfirmed callback itself aborts. */
  lemma SettlesInMatchingState(m: Machine, s: Step)
    requires Settles(m, s)
    ensures Next(m, s).state == FinalState(Next(m, s).phase.returned, s)
  {
  }

  function AfterStep(state: State, s: Step): State {
    match s
    case Abort => Error
    case Reset => Idle
    case _ => state
  }

  lemma SettledStep(m: Machine, s: Step)
    requires Consistent(m) && m.phase.Settled? && !s.Start?
    ensures Next(m, s).phase == m.phase && Next(m, s).state == AfterStep(m.state, s)
  {
  }

  lemma AfterwardsSnoc(settled: State, after: seq<Step>, s: Step)
    ensures Afterwards(settled, after + [s]) == AfterStep(Afterwards(settled, after), s)
  {
    assert (after + [s])[..|after|] == after;
  }

  /** After any history in which the last run has ended, some step settled it, and the state
      is the one that step left, changed only by later aborts and resets. */
  lemma {:induction false} SettledStateExactly(steps: seq<Step>) returns (k: nat)
    requires Run(INITIAL, steps).phase.Settled?
    ensures SettledBy(steps, k)
    ensures var m := Run(INITIAL, steps);
            m.phase == Run(INITIAL, steps[..k + 1]).phase &&
            m.state == Afterwards(FinalState(m.phase.returned, steps[k]), steps[k + 1..])
  {
    var n := |steps| - 1;
    var front, s := steps[..n], steps[n];
    var m := Run(INITIAL, front);
    assert steps[..n + 1] == steps;
    if Settles(m, s) {
      k := n;
      SettlesInMatchingState(m, s);
      assert steps[n + 1..] == [];
    } else {
      RunConsistent(INITIAL, front);
      OnlyStepsSettle(m, s);
      k := SettledStateExactly(front);
      SettledStep(m, s);
      SplitAgain(steps, k);
      AfterwardsSnoc(FinalState(m.phase.returned, steps[k]), front[k + 1..], s);
    }
  }

  lemma OnlyStepsSettle(m: Machine, s: Step)
    requires Next(m, s).phase.Settled? && !Settles(m, s)
    ensures m.phase.Settled? && !s.Start?
  {
  }

  lemma SplitAgain(steps: seq<Step>, k: nat)
    requires k < |steps| - 1
    ensures var n := |steps| - 1;
            steps[..n][..k] == steps[..k] && steps[..n][..k + 1] == steps[..k + 1] &&
            steps[k + 1..] == steps[..n][k + 1..] + [steps[n]] &&
            forall i :: k < i < n ==> steps[..n][i] == steps[i]
  {
  }

  /** An abort inside onConfirmed: execute returns and the tracker shows an error. */
  lemma AbortOnConfirmedMisleads()
    ensures var steps := [Start(false), OperationSettles(true), AfterOperation(Callback(false, false), 0),
                          ReceiptSettles(Confirmed), AfterRace(Callback(true, false))];
            var m := Run(INITIAL, steps);
            m.phase == Settled(true) && m.state == Error
  {
    RunFive(Start(false), OperationSettles(true), AfterOperation(Callback(false, false), 0),
            ReceiptSettles(Confirmed), AfterRace(Callback(true, false)));
  }

  lemma RunFive(a: Step, b: Step, c: Step, d: Step, e: Step)
    ensures Run(INITIAL, [a, b, c, d, e]) == Next(Next(Next(Next(Next(INITIAL, a), b), c), d), e)
  {
    var steps := [a, b, c, d, e];
    assert steps[..4] == [a, b, c, d] && [a, b, c, d][..3] == [a, b, c];
    assert [a, b, c][..2] == [a, b] && [a, b][..1] == [a] && [a][..0] == [];
    assert Run(INITIAL, [a]) == Next(INITIAL, a);
    assert Run(INITIAL, [a, b]) == Next(Run(INITIAL, [a]), b);
    assert Run(INITIAL, [a, b, c]) == Next(Run(INITIAL, [a, b]), c);
    assert Run(INITIAL, [a, b, c, d]) == Next(Run(INITIAL, [a, b, c]), d);
  }

  /** Timeout is transient: it shows only while the receipt is awaited, and the run can still succeed. */
  lemma TimeoutIsTransient(steps: seq<Step>)
    requires Run(INITIAL, steps).state == Timeout
    ensures var m := Run(INITIAL, steps);
            (m.phase.AwaitingReceipt? || m.phase.RaceSettled?) &&
            (m.phase.AwaitingReceipt? ==>
               Next(Next(m, ReceiptSettles(Confirmed)), AfterRace(Callback(false, false))).state == Success)
  {
    RunConsistent(INITIAL, steps);
  }

  /** A timer that fires after settlement changes no status. */
  lemma LateTimerIsHarmless(steps: seq<Step>)
    requires Run(INITIAL, steps).phase.Settled?
    ensures var m := Run(INITIAL, steps);
            Next(m, TimerFires) == m || Next(m, TimerFires) == m.(timer := Fired)
  {
    RunConsistent(INITIAL, steps);
  }

  // ----- when a run returns

  predicate Rests(m: Machine) {
    m.phase.NotRunning? || m.phase.Settled?
  }

  /** An abort that reaches the run: before the check that follows the operation, or while
      the race listens for it. */
  predicate AbortLands(m: Machine, s: Step) {
    s == Abort && (m.phase.AwaitingHash? || m.phase.HashSettled? || m.phase == AwaitingReceipt(true))
  }

  /** Something else goes wrong: a pre-aborted signal, a failed operation or receipt, a callback that throws. */
  predicate Fails(m: Machine, s: Step) {
    match s
    case Start(signalAborted) => Rests(m) && signalAborted
    case OperationSettles(ok) => m.phase.AwaitingHash? && !ok
    case AfterOperation(cb, _) => m.phase == HashSettled(true) && m.controller != Some(true) && cb.throws
    case ReceiptSettles(race) => m.phase.AwaitingReceipt? && race != Confirmed
    case AfterRace(cb) => m.phase == RaceSettled(Confirmed) && cb.throws
    case _ => false
  }

  predicate GoesWrong(m: Machine, s: Step) {
    AbortLands(m, s) || Fails(m, s)
  }

  /** Some step after `m` goes wrong. */
  predicate WentWrong(m: Machine, steps: seq<Step>) {
    exists k :: 0 <= k < |steps| && GoesWrong(Run(m, steps[..k]), steps[k])
  }

  /** The run can only end by throwing. */
  predicate Doomed(m: Machine) {
    match m.phase
    case NotRunning => false
    case AwaitingHash => m.controller == Some(true)
    case HashSettled(ok) => !ok || m.controller == Some(true)
    case AwaitingReceipt(_) => false
    case RaceSettled(race) => race != Confirmed
    case Settled(returned) => !returned
  }

  predicate WithinRun(steps: seq<Step>) {
    forall i :: 0 < i < |steps| ==> !steps[i].Start?
  }

  lemma {:induction false} DoomedExactly(m: Machine, steps: seq<Step>)
    requires Consistent(m) && Rests(m)
    requires steps != [] && steps[0].Start? && WithinRun(steps)
    ensures Doomed(Run(m, steps)) <==> WentWrong(m, steps)
    ensures !Run(m, steps).phase.NotRunning?
  {
    var n := |steps| - 1;
    var front, s := steps[..n], steps[n];
    WentWrongStep(m, steps);
    if n == 0 {
      assert front == [] && Run(m, front) == m;
    } else {
      DoomedExactly(m, front);
      RunConsistent(m, front);
      DoomedStep(Run(m, front), s);
    }
  }

  /** One step of a run: it becomes doomed exactly when the step goes wrong. */
  lemma DoomedStep(m: Machine, s: Step)
    requires Consistent(m) && !m.phase.NotRunning? && !s.Start?
    ensures Doomed(Next(m, s)) <==> Doomed(m) || GoesWrong(m, s)
    ensures !Next(m, s).phase.NotRunning?
  {
  }

  lemma WentWrongStep(m: Machine, steps: seq<Step>)
    requires steps != []
    ensures var n := |steps| - 1;
            WentWrong(m, steps) <==> WentWrong(m, steps[..n]) || GoesWrong(Run(m, steps[..n]), steps[n])
  {
    var n := |steps| - 1;
    assert forall k :: 0 <= k < n ==> steps[..n][..k] == steps[..k] && steps[..n][k] == steps[k];
    if WentWrong(m, steps[..n]) {
      var k :| 0 <= k < n && GoesWrong(Run(m, steps[..n][..k]), steps[..n][k]);
      assert GoesWrong(Run(m, steps[..k]), steps[k]);
    }
    if WentWrong(m, steps) {
      var k :| 0 <= k < |steps| && GoesWrong(Run(m, steps[..k]), steps[k]);
      assert k < n ==> GoesWrong(Run(m, steps[..n][..k]), steps[..n][k]);
    }
  }

  /** The main result: under every interleaving, a run that has ended returned exactly when
      no abort landed in it and nothing failed. */
  lemma {:induction false} ReturnsExactlyWhenNothingWrong(before: seq<Step>, steps: seq<Step>)
    requires Rests(Run(INITIAL, before))
    requires steps != [] && steps[0].Start? && WithinRun(steps)
    requires Run(Run(INITIAL, before), steps).phase.Settled?
    ensures Run(Run(INITIAL, before), steps).phase.returned <==> !WentWrong(Run(INITIAL, before), steps)
  {
    RunConsistent(INITIAL, before);
    DoomedExactly(Run(INITIAL, before), steps);
  }

  /** The onSubmitted callback of the last run that got that far. */
  function Submitted(steps: seq<Step>): Option<Callback> {
    if steps == [] then None
    else
      var front, s := steps[..|steps| - 1], steps[|steps| - 1];
      if s.AfterOperation? && Run(INITIAL, front).phase.HashSettled? then Some(s.onSubmitted) else Submitted(front)
  }

  /** The race listens for an abort exactly when the run's onSubmitted callback has not aborted. */
  lemma {:induction false} ListeningExactly(steps: seq<Step>)
    requires Run(INITIAL, steps).phase.AwaitingReceipt?
    ensures Submitted(steps).Some?
    ensures Run(INITIAL, steps).phase.listening <==> !Submitted(steps).value.aborts
  {
    var front, s := steps[..|steps| - 1], steps[|steps| - 1];
    RunConsistent(INITIAL, front);
    ListeningStep(Run(INITIAL, front), s);
    if Run(INITIAL, front).phase.AwaitingReceipt? {
      ListeningExactly(front);
    }
  }

  /** Waiting begins after onSubmitted, and no step while waiting changes who listens. */
  lemma ListeningStep(m: Machine, s: Step)
    requires Consistent(m) && Next(m, s).phase.AwaitingReceipt?
    ensures if s.AfterOperation? && m.phase.HashSettled? then Next(m, s).phase.listening == !s.onSubmitted.aborts
            else m.phase == Next(m, s).phase
  {
    if m.phase.HashSettled? {
      match m.controller
      case Some(true) =>
      case Some(false) =>
    }
  }

  /** An abort while the receipt is awaited makes the run reject, however it goes on, unless
      the run's onSubmitted callback had aborted already: then the wait goes on as before. */
  lemma AbortWhileWaiting(steps: seq<Step>, after: seq<Step>)
    requires Run(INITIAL, steps).phase.AwaitingReceipt? && forall i :: 0 <= i < |after| ==> !after[i].Start?
    ensures Submitted(steps).Some?
    ensures var m := Run(Run(INITIAL, steps + [Abort]), after);
            if Submitted(steps).value.aborts then
              Run(INITIAL, steps + [Abort]).phase == Run(INITIAL, steps).phase
            else
              m.phase == RaceSettled(Rejected) || m.phase == Settled(false)
  {
    ListeningExactly(steps);
    RunConsistent(INITIAL, steps);
    assert (steps + [Abort])[..|steps|] == steps;
    if !Submitted(steps).value.aborts {
      RejectedStays(Run(INITIAL, steps + [Abort]), after);
    }
  }

  lemma {:induction false} RejectedStays(m: Machine, after: seq<Step>)
    requires m.phase == RaceSettled(Rejected) && forall i :: 0 <= i < |after| ==> !after[i].Start?
    ensures Run(m, after).phase == RaceSettled(Rejected) || Run(m, after).phase == Settled(false)
  {
    if after != [] {
      RejectedStays(m, after[..|after| - 1]);
    }
  }

  /** Aborting from the onSubmitted callback is lost: the run goes on to return, and the
      tracker ends in success and aborted at once. */
  lemma AbortInCallbackIsLost(timeout: nat)
    ensures var steps := [Start(false), OperationSettles(true), AfterOperation(Callback(true, false), timeout),
                          ReceiptSettles(Confirmed), AfterRace(Callback(false, false))];
            var m := Run(INITIAL, steps);
            m.phase == Settled(true) && m.state == Success && m.aborted
  {
    RunFive(Start(false), OperationSettles(true), AfterOperation(Callback(true, false), timeout),
            ReceiptSettles(Confirmed), AfterRace(Callback(false, false)));
  }
}
