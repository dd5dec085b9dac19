/** Watching CVM state: the reader of one event stream and the loop that reconnects. */
module Watch {
  import opened Text

  /** A decoded data object; only its status is looked at. */
  datatype Object = Object(status: Option<string>, rest: int)

  datatype Failure =
    | Refused(apiStatus: Option<int>)
    | NoStatus
    | TimedOut
    | StreamEnded

  datatype Event = Event(kind: string, data: Option<Object>, error: Option<string>)

  /** The library calls: JSON decoding of the data, and trimming. */
  datatype Library = Library(decode: string -> Option<Object>, trim: string -> string)

  datatype Outcome = Completed | Cancelled | Failed(failure: Failure)

  datatype Parsed = Parsed(events: seq<Event>, outcome: Outcome)

  // ----- one stream

  function MakeEvent(lib: Library, kind: string, data: string): Event {
    Event(kind,
          if data == "" then None else lib.decode(data),
          if kind == "error" then Some("SSE error: " + data) else None)
  }

  predicate HasStatus(e: Event) {
    e.data.Some? && e.data.value.status.Some? && e.data.value.status.value != ""
  }

  function FieldValue(lib: Library, line: string, prefix: string): string
    requires StartsWith(line, prefix)
  {
    lib.trim(line[|prefix|..])
  }

  function Cons(e: Event, p: Parsed): Parsed {
    p.(events := [e] + p.events)
  }

  /** What a stream delivers from a pending event type and data. The first `accepts`
      sends succeed; at the next one the context turns out to be cancelled. */
  function Stream(lib: Library, lines: seq<string>, kind: string, data: string, accepts: nat): Parsed {
    if lines == [] then Parsed([], Failed(StreamEnded))
    else if lines[0] == "" then
      if kind == "" && data == "" then Stream(lib, lines[1..], "", "", accepts)
      else
        var e := MakeEvent(lib, kind, data);
        if kind == "complete" && !HasStatus(e) then Parsed([], Failed(NoStatus))
        else if accepts == 0 then Parsed([], Cancelled)
        else if kind == "complete" then Parsed([e], Completed)
        else if kind == "timeout" then Parsed([e], Failed(TimedOut))
        else Cons(e, Stream(lib, lines[1..], "", "", accepts - 1))
    else if StartsWith(lines[0], "event:") then
      Stream(lib, lines[1..], FieldValue(lib, lines[0], "event:"), data, accepts)
    else if StartsWith(lines[0], "data:") then
      Stream(lib, lines[1..], kind, FieldValue(lib, lines[0], "data:"), accepts)
    else Stream(lib, lines[1..], kind, data, accepts)
  }

  /** The scanner loop of streamSSE. */
  method StreamSSE(lib: Library, lines: seq<string>, accepts: nat) returns (sent: seq<Event>, outcome: Outcome)
    ensures Parsed(sent, outcome) == Stream(lib, lines, "", "", accepts)
  {
    sent := [];
    var eventType, data := "", "";
    var left := accepts;
    for i := 0 to |lines|
      invariant var p := Stream(lib, lines[i..], eventType, data, left);
                Stream(lib, lines, "", "", accepts) == Parsed(sent + p.events, p.outcome)
    {
      ghost var tail := lines[i..];
      assert tail[0] == lines[i] && tail[1..] == lines[i + 1..];
      var line := lines[i];
      if line == "" {
        if eventType != "" || data != "" {
          var evt := MakeEvent(lib, eventType, data);
          if eventType == "complete" && !HasStatus(evt) {
            return sent, Failed(NoStatus);
          }
          if left == 0 {
            return sent, Cancelled;
          }
          ghost var rest := Stream(lib, lines[i + 1..], "", "", left - 1).events;
          Associate(sent, [evt], rest);
          left := left - 1;
          sent := sent + [evt];
          if eventType == "complete" {
            return sent, Completed;
          }
          if eventType == "timeout" {
            return sent, Failed(TimedOut);
          }
        }
        eventType := "";
        data := "";
        continue;
      }
      if StartsWith(line, "event:") {
        eventType := FieldValue(lib, line, "event:");
      } else if StartsWith(line, "data:") {
        data := FieldValue(lib, line, "data:");
      }
    }
    return sent, Failed(StreamEnded);
  }

  // ----- the reconnect loop

  /** One turn of the loop: how the connection went and what each select chose. */
  datatype Attempt = Attempt(
    refused: Option<Failure>,
    lines: seq<string>,
    accepts: nat,
    doneAfterStream: bool,
    doneAtErrorSend: bool,
    doneInDelay: bool)

  function Connect(lib: Library, a: Attempt): Parsed {
    if a.refused.Some? then Parsed([], Failed(a.refused.value)) else Stream(lib, a.lines, "", "", a.accepts)
  }

  predicate RetryableStatus(status: int) {
    status in {408, 429, 500, 502, 503, 504}
  }

  predicate Permanent(f: Failure) {
    f.Refused? && f.apiStatus.Some? && !RetryableStatus(f.apiStatus.value)
  }

  datatype Ending = Done | Stopped | GaveUp | StillTrying

  /** A run: the events delivered, why it ended, and how many connections it made. */
  datatype Run = Run(events: seq<Event>, ending: Ending, connections: nat)

  function ErrorEvent(f: Failure): Event {
    Event("error", None, Some(match f
      case Refused(_) => "request failed"
      case NoStatus => "SSE complete event has no status"
      case TimedOut => "SSE stream timed out"
      case StreamEnded => "watch stream"))
  }

  function ShouldStop(f: Failure, maxRetries: Option<nat>, retries: nat): bool {
    Permanent(f) || (maxRetries.Some? && retries >= maxRetries.value)
  }

  function Before(p: Parsed, r: Run): Run {
    Run(p.events + r.events, r.ending, r.connections + 1)
  }

  /** The run over the turns to come, after `retries` reconnections. */
  function Watching(lib: Library, attempts: seq<Attempt>, maxRetries: Option<nat>, retries: nat): Run {
    if attempts == [] then Run([], StillTrying, 0)
    else
      var a := attempts[0];
      var p := Connect(lib, a);
      if p.outcome == Completed then Run(p.events, Done, 1)
      else if p.outcome == Cancelled || a.doneAfterStream then Run(p.events, Stopped, 1)
      else if ShouldStop(p.outcome.failure, maxRetries, retries) then
        if a.doneAtErrorSend then Run(p.events, Stopped, 1)
        else Run(p.events + [ErrorEvent(p.outcome.failure)], GaveUp, 1)
      else if a.doneInDelay then Run(p.events, Stopped, 1)
      else Before(p, Watching(lib, attempts[1..], maxRetries, retries + 1))
  }

  /** The goroutine of WatchCVMState; it consumes one attempt a turn. */
  method WatchCVMState(lib: Library, attempts: seq<Attempt>, maxRetries: Option<nat>) returns (run: Run)
    ensures run == Watching(lib, attempts, maxRetries, 0)
  {
    var ch: seq<Event> := [];
    var retries := 0;
    while retries < |attempts|
      invariant 0 <= retries <= |attempts|
      invariant var r := Watching(lib, attempts[retries..], maxRetries, retries);
                Watching(lib, attempts, maxRetries, 0) == Run(ch + r.events, r.ending, retries + r.connections)
    {
      var a := attempts[retries];
      ghost var tail := attempts[retries..];
      assert tail[0] == a && tail[1..] == attempts[retries + 1..];
      var sent, outcome := [], Cancelled;
      if a.refused.Some? {
        outcome := Failed(a.refused.value);
      } else {
        sent, outcome := StreamSSE(lib, a.lines, a.accepts);
      }
      ghost var p := Connect(lib, a);
      assert p == Parsed(sent, outcome);
      ghost var rest := Watching(lib, attempts[retries + 1..], maxRetries, retries + 1).events;
      Associate(ch, sent, rest);
      ch := ch + sent;
      if outcome == Completed {
        return Run(ch, Done, retries + 1);
      }
      if outcome == Cancelled || a.doneAfterStream {
        return Run(ch, Stopped, retries + 1);
      }
      if ShouldStop(outcome.failure, maxRetries, retries) {
        if a.doneAtErrorSend {
          return Run(ch, Stopped, retries + 1);
        }
        assert ch + [ErrorEvent(outcome.failure)] == ch[..|ch| - |sent|] + (sent + [ErrorEvent(outcome.failure)]);
        return Run(ch + [ErrorEvent(outcome.failure)], GaveUp, retries + 1);
      }
      if a.doneInDelay {
        return Run(ch, Stopped, retries + 1);
      }
      retries := retries + 1;
    }
    assert attempts[retries..] == [];
    return Run(ch, StillTrying, retries);
  }

  // ----- safety of one stream

  /** A complete event carries a status and is the last one; it is there exactly when the stream completed. */
  predicate StreamSafe(p: Parsed) {
    && (forall i :: 0 <= i < |p.events| && p.events[i].kind == "complete" ==>
          HasStatus(p.events[i]) && i == |p.events| - 1 && p.outcome == Completed)
    && (p.outcome == Completed ==> p.events != [] && p.events[|p.events| - 1].kind == "complete")
    && (forall i :: 0 <= i < |p.events| && p.events[i].kind == "timeout" ==>
          i == |p.events| - 1 && p.outcome == Failed(TimedOut))
  }

  lemma {:induction false} StreamIsSafe(lib: Library, lines: seq<string>, kind: string, data: string, accepts: nat)
    ensures StreamSafe(Stream(lib, lines, kind, data, accepts))
    ensures |Stream(lib, lines, kind, data, accepts).events| <= accepts
  {
    if lines != [] {
      if lines[0] == "" {
        StreamIsSafe(lib, lines[1..], "", "", accepts);
        if accepts > 0 && (kind != "" || data != "") && kind != "complete" && kind != "timeout" {
          StreamIsSafe(lib, lines[1..], "", "", accepts - 1);
          ConsSafe(MakeEvent(lib, kind, data), Stream(lib, lines[1..], "", "", accepts - 1));
        }
      } else if StartsWith(lines[0], "event:") {
        StreamIsSafe(lib, lines[1..], FieldValue(lib, lines[0], "event:"), data, accepts);
      } else if StartsWith(lines[0], "data:") {
        StreamIsSafe(lib, lines[1..], kind, FieldValue(lib, lines[0], "data:"), accepts);
      } else {
        StreamIsSafe(lib, lines[1..], kind, data, accepts);
      }
    }
  }

  lemma ConsSafe(e: Event, p: Parsed)
    requires StreamSafe(p) && e.kind != "complete" && e.kind != "timeout"
    ensures StreamSafe(Cons(e, p))
  {
    var all := [e] + p.events;
    assert forall i :: 0 < i < |all| ==> all[i] == p.events[i - 1];
  }

  // ----- safety of whole runs

  predicate RunSafe(r: Run) {
    && (forall i :: 0 <= i < |r.events| && r.events[i].kind == "complete" ==>
          HasStatus(r.events[i]) && i == |r.events| - 1 && r.ending == Done)
    && (r.ending == Done ==> r.events != [] && r.events[|r.events| - 1].kind == "complete")
    && (r.ending == GaveUp ==> r.events != [] && r.events[|r.events| - 1].kind == "error" &&
                               r.events[|r.events| - 1].error.Some?)
  }

  lemma ConnectIsSafe(lib: Library, a: Attempt)
    ensures StreamSafe(Connect(lib, a))
  {
    StreamIsSafe(lib, a.lines, "", "", a.accepts);
  }

  /** In every run a complete event carries a status, is the last event delivered and ends
      the run; a run that ends uncancelled ends with a complete or an error event. */
  lemma {:induction false} WatchIsSafe(lib: Library, attempts: seq<Attempt>, maxRetries: Option<nat>, retries: nat)
    ensures RunSafe(Watching(lib, attempts, maxRetries, retries))
  {
    if attempts != [] {
      var p := Connect(lib, attempts[0]);
      ConnectIsSafe(lib, attempts[0]);
      WatchIsSafe(lib, attempts[1..], maxRetries, retries + 1);
      if p.outcome != Completed {
        BeforeSafe(p, Watching(lib, attempts[1..], maxRetries, retries + 1));
      }
    }
  }

  lemma BeforeSafe(p: Parsed, r: Run)
    requires StreamSafe(p) && p.outcome != Completed && RunSafe(r)
    ensures RunSafe(Before(p, r))
  {
    var all := p.events + r.events;
    assert forall i :: 0 <= i < |all| ==> all[i] == if i < |p.events| then p.events[i] else r.events[i - |p.events|];
  }

  /** At most MaxRetries + 1 connections are made, after which a run has ended; a run without
      a limit gives up only on a permanent refusal. */
  lemma {:induction false} ConnectionsBounded(lib: Library, attempts: seq<Attempt>, maxRetries: Option<nat>,
                                              retries: nat)
    requires maxRetries.Some? ==> retries <= maxRetries.value
    ensures var r := Watching(lib, attempts, maxRetries, retries);
            r.connections <= |attempts| &&
            (maxRetries.Some? ==> r.connections <= maxRetries.value - retries + 1) &&
            (r.ending != StillTrying ==> r.connections > 0) &&
            (maxRetries.Some? && |attempts| > maxRetries.value - retries ==> r.ending != StillTrying) &&
            (r.ending == GaveUp ==>
               var f := Connect(lib, attempts[r.connections - 1]).outcome;
               f.Failed? && ShouldStop(f.failure, maxRetries, retries + r.connections - 1))
  {
    if attempts != [] {
      var p := Connect(lib, attempts[0]);
      if p.outcome.Failed? && !ShouldStop(p.outcome.failure, maxRetries, retries) {
        ConnectionsBounded(lib, attempts[1..], maxRetries, retries + 1);
      }
    }
  }

  function AllEvents(lib: Library, attempts: seq<Attempt>): seq<Event> {
    if attempts == [] then [] else Connect(lib, attempts[0]).events + AllEvents(lib, attempts[1..])
  }

  /** Every connection but the last failed, and so did the last one when the loop gave up. */
  lemma {:induction false} ConnectionShape(lib: Library, attempts: seq<Attempt>, maxRetries: Option<nat>, retries: nat)
    ensures var r := Watching(lib, attempts, maxRetries, retries);
            r.connections <= |attempts| && (r.ending == GaveUp ==> r.connections > 0) &&
            (forall i :: 0 <= i < r.connections && (i < r.connections - 1 || r.ending == GaveUp) ==>
               Connect(lib, attempts[i]).outcome.Failed?)
  {
    if attempts != [] {
      ConnectionShape(lib, attempts[1..], maxRetries, retries + 1);
    }
  }

  /** The one event the loop itself adds. */
  function FinalError(lib: Library, attempts: seq<Attempt>, r: Run): seq<Event> {
    if r.ending == GaveUp && 0 < r.connections <= |attempts| &&
       Connect(lib, attempts[r.connections - 1]).outcome.Failed?
    then [ErrorEvent(Connect(lib, attempts[r.connections - 1]).outcome.failure)]
    else []
  }

  /** Delivered events are the concatenation of what each connection parsed, followed by
      one error event exactly when the loop gave up. */
  lemma {:induction false} EventsAreConcatenated(lib: Library, attempts: seq<Attempt>, maxRetries: Option<nat>,
                                                 retries: nat)
    ensures var r := Watching(lib, attempts, maxRetries, retries);
            r.connections <= |attempts| &&
            r.events == AllEvents(lib, attempts[..r.connections]) + FinalError(lib, attempts, r)
    ensures var r := Watching(lib, attempts, maxRetries, retries);
            r.ending == GaveUp <==> FinalError(lib, attempts, r) != []
  {
    ConnectionShape(lib, attempts, maxRetries, retries);
    if attempts != [] {
      var p, r := Connect(lib, attempts[0]), Watching(lib, attempts, maxRetries, retries);
      var rest := Watching(lib, attempts[1..], maxRetries, retries + 1);
      if p.outcome.Failed? && r == Before(p, rest) {
        var n := rest.connections;
        ConnectionShape(lib, attempts[1..], maxRetries, retries + 1);
        EventsAreConcatenated(lib, attempts[1..], maxRetries, retries + 1);
        assert attempts[..n + 1][0] == attempts[0] && attempts[..n + 1][1..] == attempts[1..][..n];
        assert FinalError(lib, attempts, r) == FinalError(lib, attempts[1..], rest);
        Associate(p.events, AllEvents(lib, attempts[1..][..n]), FinalError(lib, attempts[1..], rest));
      } else {
        OneAttempt(lib, attempts);
      }
    }
  }

  lemma OneAttempt(lib: Library, attempts: seq<Attempt>)
    requires attempts != []
    ensures AllEvents(lib, attempts[..1]) == Connect(lib, attempts[0]).events
  {
    assert attempts[..1] == [attempts[0]] && attempts[..1][1..] == [];
  }

  // ----- what a stream of well-formed blocks delivers

  datatype Block = Block(kind: string, data: string)

  function Render(blocks: seq<Block>): seq<string> {
    if blocks == [] then []
    else ["event:" + blocks[0].kind, "data:" + blocks[0].data, ""] + Render(blocks[1..])
  }

  function Deliver(lib: Library, blocks: seq<Block>): seq<Event> {
    if blocks == [] then [] else [MakeEvent(lib, blocks[0].kind, blocks[0].data)] + Deliver(lib, blocks[1..])
  }

  /** Blocks of an event line, a data line and an empty line are delivered one by one, in order. */
  lemma {:induction false} BlocksAreDelivered(lib: Library, blocks: seq<Block>, accepts: nat)
    requires |blocks| <= accepts
    requires forall i :: 0 <= i < |blocks| ==>
               blocks[i].kind != "" && blocks[i].kind != "complete" && blocks[i].kind != "timeout" &&
               lib.trim(blocks[i].kind) == blocks[i].kind && lib.trim(blocks[i].data) == blocks[i].data
    ensures Stream(lib, Render(blocks), "", "", accepts) == Parsed(Deliver(lib, blocks), Failed(StreamEnded))
  {
    if blocks != [] {
      var b := blocks[0];
      BlocksAreDelivered(lib, blocks[1..], accepts - 1);
      var lines := Render(blocks);
      EventLine(lib, b.kind, lines, "", "", accepts);
      DataLine(lib, b.data, lines[1..], b.kind, accepts);
      assert lines[1..][1..][1..] == Render(blocks[1..]);
    }
  }

  predicate Ordinary(lib: Library, b: Block) {
    b.kind != "" && lib.trim(b.kind) == b.kind && lib.trim(b.data) == b.data
  }

  /** Behind ordinary blocks, a final complete block with a status or a timeout block ends
      the stream: everything is delivered and nothing after it is read. */
  lemma {:induction false} LastBlockEndsStream(lib: Library, blocks: seq<Block>, last: Block, more: seq<string>,
                                               accepts: nat)
    requires |blocks| < accepts && Ordinary(lib, last)
    requires forall i :: 0 <= i < |blocks| ==>
               Ordinary(lib, blocks[i]) && blocks[i].kind != "complete" && blocks[i].kind != "timeout"
    requires last.kind == "timeout" || (last.kind == "complete" && HasStatus(MakeEvent(lib, last.kind, last.data)))
    ensures Stream(lib, Render(blocks + [last]) + more, "", "", accepts) ==
            Parsed(Deliver(lib, blocks + [last]), if last.kind == "complete" then Completed else Failed(TimedOut))
  {
    var all := blocks + [last];
    var b := all[0];
    var rest := Render(all[1..]) + more;
    var lines := Render(all) + more;
    assert lines == ["event:" + b.kind, "data:" + b.data, ""] + rest by {
      Associate(["event:" + b.kind, "data:" + b.data, ""], Render(all[1..]), more);
    }
    ReadBlock(lib, b, lines, rest, accepts);
    if blocks == [] {
      assert all == [last] && all[1..] == [];
      assert Deliver(lib, all) == [MakeEvent(lib, last.kind, last.data)];
    } else {
      assert all[1..] == blocks[1..] + [last];
      LastBlockEndsStream(lib, blocks[1..], last, more, accepts - 1);
    }
  }

  /** The three lines of a block lead to the end of its event. */
  lemma ReadBlock(lib: Library, b: Block, lines: seq<string>, rest: seq<string>, accepts: nat)
    requires Ordinary(lib, b) && lines == ["event:" + b.kind, "data:" + b.data, ""] + rest
    ensures Stream(lib, lines, "", "", accepts) == Stream(lib, [""] + rest, b.kind, b.data, accepts)
    ensures ([""] + rest)[1..] == rest
  {
    EventLine(lib, b.kind, lines, "", "", accepts);
    DataLine(lib, b.data, lines[1..], b.kind, accepts);
    assert lines[1..][1..] == [""] + rest;
  }

  lemma EventLine(lib: Library, kind: string, lines: seq<string>, pending: string, data: string, accepts: nat)
    requires lines != [] && lines[0] == "event:" + kind
    ensures Stream(lib, lines, pending, data, accepts) == Stream(lib, lines[1..], lib.trim(kind), data, accepts)
  {
    assert lines[0][..6] == "event:" && lines[0][6..] == kind;
  }

  lemma DataLine(lib: Library, data: string, lines: seq<string>, kind: string, accepts: nat)
    requires lines != [] && lines[0] == "data:" + data
    ensures Stream(lib, lines, kind, "", accepts) == Stream(lib, lines[1..], kind, lib.trim(data), accepts)
  {
    assert lines[0][..5] == "data:" && lines[0][5..] == data;
    assert lines[0][0] == 'd' && "event:"[0] == 'e';
  }
}
