/** The event stream frame by frame, and the reconnect loop turn by turn, in terms of what arrives. */
module WatchFrames {
  import opened Text
  import opened Watch

  // ----- frames

  /** The field that the last line with a prefix gives, or nothing. */
  function LastField(lib: Library, prefix: string, frame: seq<string>, given: string): string {
    if frame == [] then given
    else
      var last := frame[|frame| - 1];
      if StartsWith(last, prefix) then lib.trim(last[|prefix|..])
      else LastField(lib, prefix, frame[..|frame| - 1], given)
  }

  predicate NoEmptyLine(frame: seq<string>) {
    forall i :: 0 <= i < |frame| ==> frame[i] != ""
  }

  lemma {:induction false} LastFieldCons(lib: Library, prefix: string, line: string, frame: seq<string>, given: string)
    ensures LastField(lib, prefix, [line] + frame, given) ==
            LastField(lib, prefix, frame, if StartsWith(line, prefix) then lib.trim(line[|prefix|..]) else given)
  {
    var all := [line] + frame;
    if frame == [] {
      assert all[..0] == [];
      assert LastField(lib, prefix, all[..0], given) == given;
    } else {
      LastFieldCons(lib, prefix, line, frame[..|frame| - 1], given);
      assert all[..|all| - 1] == [line] + frame[..|frame| - 1];
    }
  }

  lemma PrefixesApart(line: string)
    ensures !(StartsWith(line, "event:") && StartsWith(line, "data:"))
  {
    assert StartsWith(line, "event:") ==> line[..6][0] == line[0];
    assert StartsWith(line, "data:") ==> line[..5][0] == line[0];
  }

  /** Reading the lines of a frame: the last event line and the last data line count, every
      other line is passed over. */
  lemma {:induction false} FrameRead(lib: Library, frame: seq<string>, rest: seq<string>, kind: string, data: string,
                                     accepts: nat)
    requires NoEmptyLine(frame)
    ensures Stream(lib, frame + rest, kind, data, accepts) ==
            Stream(lib, rest, LastField(lib, "event:", frame, kind), LastField(lib, "data:", frame, data), accepts)
    decreases |frame|
  {
    if frame == [] {
      assert frame + rest == rest;
    } else {
      var line, others := frame[0], frame[1..];
      assert frame == [line] + others && (frame + rest)[1..] == others + rest;
      PrefixesApart(line);
      LastFieldCons(lib, "event:", line, others, kind);
      LastFieldCons(lib, "data:", line, others, data);
      var k := if StartsWith(line, "event:") then lib.trim(line[6..]) else kind;
      var d := if StartsWith(line, "data:") then lib.trim(line[5..]) else data;
      FrameRead(lib, others, rest, k, d, accepts);
    }
  }

  /** The data of a frame: decoded when there is some and it decodes. */
  function Decoded(lib: Library, data: string): Option<Object> {
    if data == "" then None else lib.decode(data)
  }

  predicate GivesStatus(o: Option<Object>) {
    match o
    case Some(Object(Some(status), _)) => |status| > 0
    case _ => false
  }

  /** What one frame delivers: nothing when it has neither kind nor data; a failure when it
      says complete without a status; else its event, an error frame with its text, after
      which complete and timeout end the stream. */
  lemma FrameMeaning(lib: Library, frame: seq<string>, rest: seq<string>, accepts: nat)
    requires NoEmptyLine(frame)
    ensures var kind, data := LastField(lib, "event:", frame, ""), LastField(lib, "data:", frame, "");
            var event := Event(kind, Decoded(lib, data), if kind == "error" then Some("SSE error: " + data) else None);
            Stream(lib, frame + ([""] + rest), "", "", accepts) ==
            if kind == "" && data == "" then Stream(lib, rest, "", "", accepts)
            else if kind == "complete" && !GivesStatus(Decoded(lib, data)) then Parsed([], Failed(NoStatus))
            else if accepts == 0 then Parsed([], Cancelled)
            else if kind == "complete" then Parsed([event], Completed)
            else if kind == "timeout" then Parsed([event], Failed(TimedOut))
            else
              var p := Stream(lib, rest, "", "", accepts - 1);
              Parsed([event] + p.events, p.outcome)
  {
    var kind, data := LastField(lib, "event:", frame, ""), LastField(lib, "data:", frame, "");
    FrameRead(lib, frame, [""] + rest, "", "", accepts);
    assert ([""] + rest)[1..] == rest;
    StatusGiven(lib, kind, data);
  }

  lemma StatusGiven(lib: Library, kind: string, data: string)
    ensures HasStatus(MakeEvent(lib, kind, data)) <==> GivesStatus(Decoded(lib, data))
  {
  }

  /** A frame that no empty line ends delivers nothing. */
  lemma UnfinishedFrame(lib: Library, frame: seq<string>, accepts: nat)
    requires NoEmptyLine(frame)
    ensures Stream(lib, frame, "", "", accepts) == Parsed([], Failed(StreamEnded))
  {
    FrameRead(lib, frame, [], "", "", accepts);
    assert frame + [] == frame;
  }

  // ----- turns

  /** No reconnecting after a refusal with another status than these, or when the limit is used up. */
  predicate NoMore(f: Failure, maxRetries: Option<nat>, retries: nat) {
    || (f.Refused? && f.apiStatus.Some? && f.apiStatus.value !in {408, 429, 500, 502, 503, 504})
    || (maxRetries.Some? && maxRetries.value <= retries)
  }

  function ErrorText(f: Failure): string {
    match f
    case Refused(_) => "request failed"
    case NoStatus => "SSE complete event has no status"
    case TimedOut => "SSE stream timed out"
    case StreamEnded => "watch stream"
  }

  /** One turn of the loop: a completed or cancelled connection ends it, and so does a failed
      one when nothing more is tried; its error event is then the last, unless the context
      ends first. Otherwise the next connection follows, one retry later. */
  lemma TurnMeaning(lib: Library, a: Attempt, more: seq<Attempt>, maxRetries: Option<nat>, retries: nat)
    ensures var p := if a.refused.Some? then Parsed([], Failed(a.refused.value))
                     else Stream(lib, a.lines, "", "", a.accepts);
            Watching(lib, [a] + more, maxRetries, retries) ==
            match p.outcome
            case Completed => Run(p.events, Done, 1)
            case Cancelled => Run(p.events, Stopped, 1)
            case Failed(f) =>
              if a.doneAfterStream then Run(p.events, Stopped, 1)
              else if NoMore(f, maxRetries, retries) then
                if a.doneAtErrorSend then Run(p.events, Stopped, 1)
                else Run(p.events + [Event("error", None, Some(ErrorText(f)))], GaveUp, 1)
              else if a.doneInDelay then Run(p.events, Stopped, 1)
              else
                var next := Watching(lib, more, maxRetries, retries + 1);
                Run(p.events + next.events, next.ending, next.connections + 1)
    ensures Watching(lib, [], maxRetries, retries) == Run([], StillTrying, 0)
  {
    assert ([a] + more)[1..] == more;
  }
}
