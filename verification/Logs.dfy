/** Container logs: the batch decoder of a whole body and the streaming decoder of its chunks. */
module Logs {
  import opened Text

  datatype Channel = Stdout | Stderr

  datatype Entry = Entry(channel: Channel, message: string)

  /** JSON.parse of a trimmed line, with the base64 decoding of its message. */
  type LineParser = string -> Option<Entry>

  // ----- one line

  /** A line that trims to nothing has no entry; any other is parsed as trimmed. */
  function ParseLine(parse: LineParser, line: string): (entry: Option<Entry>)
    ensures entry == if Trim(line) == "" then None else parse(Trim(line))
  {
    BlankTrim(line);
    if Blank(line) then None else parse(Trim(line))
  }

  /** A structured line gives its entry, any other non-blank line goes through as text. */
  function LineEntries(parse: LineParser, line: string): seq<Entry> {
    match ParseLine(parse, line)
    case Some(e) => [e]
    case None => if Blank(line) then [] else [Entry(Stdout, line + "\n")]
  }

  function LinesEntries(parse: LineParser, lines: seq<string>): seq<Entry> {
    if lines == [] then [] else LineEntries(parse, lines[0]) + LinesEntries(parse, lines[1..])
  }

  function Messages(entries: seq<Entry>): string {
    if entries == [] then "" else entries[0].message + Messages(entries[1..])
  }

  // ----- the batch decoder

  function DropCr(line: string): string {
    if line != "" && line[|line| - 1] == '\r' then line[..|line| - 1] else line
  }

  /** split(/\r?\n/): a carriage return counts only in front of a line feed, so not on the last piece. */
  function BatchLines(input: string): (lines: seq<string>) {
    var pieces := Split(input, '\n');
    seq(|pieces|, i requires 0 <= i < |pieces| => if i < |pieces| - 1 then DropCr(pieces[i]) else pieces[i])
  }

  function Batch(parse: LineParser, input: string): seq<Entry> {
    LinesEntries(parse, BatchLines(input))
  }

  method ParseStructuredLogsToEntries(parse: LineParser, input: string) returns (out: seq<Entry>)
    ensures out == Batch(parse, input)
  {
    var lines := BatchLines(input);
    out := [];
    for i := 0 to |lines|
      invariant out == LinesEntries(parse, lines[..i])
    {
      LinesStep(parse, lines, i);
      var line := lines[i];
      if Blank(line) {
        continue;
      }
      var entry := ParseLine(parse, line);
      if entry.Some? {
        out := out + [entry.value];
        continue;
      }
      out := out + [Entry(Stdout, line + "\n")];
    }
    assert lines[..|lines|] == lines;
  }

  method DecodeStructuredLogsText(parse: LineParser, input: string) returns (out: string)
    ensures out == Messages(Batch(parse, input))
  {
    var lines := BatchLines(input);
    out := "";
    for i := 0 to |lines|
      invariant out == Messages(LinesEntries(parse, lines[..i]))
    {
      LinesStep(parse, lines, i);
      MessagesAppend(LinesEntries(parse, lines[..i]), LineEntries(parse, lines[i]));
      var entry := ParseLine(parse, lines[i]);
      if entry.Some? {
        MessageOf(entry.value);
        out := out + entry.value.message;
        continue;
      }
      if !Blank(lines[i]) {
        MessageOf(Entry(Stdout, lines[i] + "\n"));
        out := out + (lines[i] + "\n");
      }
    }
    assert lines[..|lines|] == lines;
  }

  lemma MessageOf(e: Entry)
    ensures Messages([e]) == e.message
  {
    assert Messages([e]) == e.message + Messages([]);
  }

  lemma {:induction false} LinesAppend(parse: LineParser, a: seq<string>, b: seq<string>)
    ensures LinesEntries(parse, a + b) == LinesEntries(parse, a) + LinesEntries(parse, b)
  {
    if a == [] {
      assert a + b == b;
    } else {
      LinesAppend(parse, a[1..], b);
      assert (a + b)[1..] == a[1..] + b;
      Associate(LineEntries(parse, a[0]), LinesEntries(parse, a[1..]), LinesEntries(parse, b));
    }
  }

  lemma LinesOne(parse: LineParser, line: string)
    ensures LinesEntries(parse, [line]) == LineEntries(parse, line)
  {
    assert [line][1..] == [];
    assert LineEntries(parse, line) + [] == LineEntries(parse, line);
  }

  lemma LinesStep(parse: LineParser, lines: seq<string>, i: nat)
    requires i < |lines|
    ensures LinesEntries(parse, lines[..i + 1]) == LinesEntries(parse, lines[..i]) + LineEntries(parse, lines[i])
  {
    assert lines[..i + 1] == lines[..i] + [lines[i]];
    LinesAppend(parse, lines[..i], [lines[i]]);
    LinesOne(parse, lines[i]);
  }

  lemma {:induction false} MessagesAppend(a: seq<Entry>, b: seq<Entry>)
    ensures Messages(a + b) == Messages(a) + Messages(b)
  {
    if a == [] {
      assert a + b == b;
    } else {
      MessagesAppend(a[1..], b);
      assert (a + b)[0] == a[0] && (a + b)[1..] == a[1..] + b;
      Associate(a[0].message, Messages(a[1..]), Messages(b));
    }
  }

  // ----- the streaming decoder

  datatype Mode = Unknown | Raw | Structured

  /** The heuristic both decoders use. */
  predicate LooksStructured(s: string) {
    StartsWith(TrimStart(s), "{")
  }

  /** What streaming a body means: the first chunk decides the mode; structured
      bodies go line by line, raw chunks go through one by one. */
  function Streamed(parse: LineParser, chunks: seq<string>): seq<Entry> {
    if chunks == [] then []
    else if LooksStructured(chunks[0]) then LineFeedEntries(parse, Concat(chunks))
    else RawEntries(chunks)
  }

  function RawEntries(chunks: seq<string>): (r: seq<Entry>) {
    seq(|chunks|, i requires 0 <= i < |chunks| => Entry(Stdout, chunks[i]))
  }

  predicate FreeBefore(s: string, c: char, i: int)
    requires 0 <= i <= |s|
  {
    c !in s[..i]
  }

  function IndexOf(s: string, c: char): (i: int)
    ensures i == -1 <==> c !in s
    ensures i != -1 ==> 0 <= i < |s| && s[i] == c && FreeBefore(s, c, i)
  {
    if s == "" then -1
    else if s[0] == c then 0
    else
      var j := IndexOf(s[1..], c);
      assert s == [s[0]] + s[1..];
      assert j != -1 ==> s[..j + 1] == [s[0]] + s[1..][..j];
      if j == -1 then -1 else j + 1
  }

  lemma FirstLine(parse: LineParser, buffer: string, idx: nat, more: string)
    requires idx < |buffer| && buffer[idx] == '\n' && '\n' !in buffer[..idx]
    ensures LineFeedEntries(parse, buffer + more) ==
            LineEntries(parse, buffer[..idx]) + LineFeedEntries(parse, buffer[idx + 1..] + more)
  {
    var rest := buffer[idx + 1..] + more;
    assert buffer + more == buffer[..idx] + ['\n'] + rest;
    SplitFirstThen(buffer[..idx], rest, '\n');
    assert ([buffer[..idx]] + Split(rest, '\n'))[1..] == Split(rest, '\n');
  }

  /** The entries of a text, one line at a time. */
  function LineFeedEntries(parse: LineParser, text: string): seq<Entry> {
    LinesEntries(parse, Split(text, '\n'))
  }

  /** The inner loop: emits every complete line and keeps the unfinished one. */
  method FlushLines(parse: LineParser, text: string, ghost more: string) returns (out: seq<Entry>, buffer: string)
    ensures '\n' !in buffer
    ensures out + LineFeedEntries(parse, buffer + more) == LineFeedEntries(parse, text + more)
  {
    out, buffer := [], text;
    var idx := IndexOf(buffer, '\n');
    while idx >= 0
      invariant idx == IndexOf(buffer, '\n')
      invariant out + LineFeedEntries(parse, buffer + more) == LineFeedEntries(parse, text + more)
      decreases |buffer|
    {
      FirstLine(parse, buffer, idx, more);
      var line := buffer[..idx];
      var entries := LineEntries(parse, line);
      Associate(out, entries, LineFeedEntries(parse, buffer[idx + 1..] + more));
      buffer := buffer[idx + 1..];
      out := out + entries;
      idx := IndexOf(buffer, '\n');
    }
  }

  /** One chunk in structured mode: what has been emitted plus what the buffer and the
      remaining chunks hold is always the whole body. */
  method StructuredChunk(parse: LineParser, done: seq<Entry>, buffer: string, chunk: string, ghost more: string,
                         ghost all: seq<Entry>)
    returns (out: seq<Entry>, rest: string)
    requires done + LineFeedEntries(parse, buffer + (chunk + more)) == all
    ensures '\n' !in rest && out + LineFeedEntries(parse, rest + more) == all
  {
    Associate(buffer, chunk, more);
    var emitted;
    emitted, rest := FlushLines(parse, buffer + chunk, more);
    Associate(done, emitted, LineFeedEntries(parse, rest + more));
    out := done + emitted;
  }

  method StreamEntries(parse: LineParser, chunks: seq<string>) returns (out: seq<Entry>)
    ensures out == Streamed(parse, chunks)
  {
    out := [];
    var buffer, mode := "", Unknown;
    ghost var all := LineFeedEntries(parse, Concat(chunks));
    for i := 0 to |chunks|
      invariant mode == if i == 0 then Unknown else if LooksStructured(chunks[0]) then Structured else Raw
      invariant mode != Structured ==> buffer == "" && out == RawEntries(chunks[..i])
      invariant mode == Structured ==>
                  '\n' !in buffer && out + LineFeedEntries(parse, buffer + Concat(chunks[i..])) == all
    {
      var chunk := chunks[i];
      assert Concat(chunks[i..]) == chunk + Concat(chunks[i + 1..]) by {
        assert chunks[i..][1..] == chunks[i + 1..];
      }
      assert RawEntries(chunks[..i + 1]) == RawEntries(chunks[..i]) + [Entry(Stdout, chunk)];
      if mode == Raw {
        out := out + [Entry(Stdout, chunk)];
        continue;
      }
      if mode == Unknown {
        assert chunks[i..] == chunks;
        assert buffer + chunk == chunk && [] + all == all;
        assert buffer + (chunk + Concat(chunks[i + 1..])) == Concat(chunks);
        if LooksStructured(buffer + chunk) {
          mode := Structured;
        } else {
          mode := Raw;
          out := out + [Entry(Stdout, buffer + chunk)];
          continue;
        }
      }
      out, buffer := StructuredChunk(parse, out, buffer, chunk, Concat(chunks[i + 1..]), all);
    }
    assert chunks[|chunks|..] == [] && chunks[..|chunks|] == chunks;
    if mode == Structured {
      assert buffer + "" == buffer;
      SplitFirst(buffer, '\n');
      LinesOne(parse, buffer);
      if !Blank(buffer) {
        out := out + LineEntries(parse, buffer);
      }
    } else if mode == Raw && buffer != "" {
      out := out + [Entry(Stdout, buffer)];
    }
  }

  // ----- streaming against batch

  lemma TrimEndCr(s: string)
    ensures TrimEnd(s + "\r") == TrimEnd(s)
  {
    assert (s + "\r")[..|s|] == s;
  }

  /** A trailing carriage return does not change what a line trims to. */
  lemma {:induction false} TrimCr(s: string)
    ensures Trim(s + "\r") == Trim(s) && Blank(s + "\r") == Blank(s)
  {
    if s == "" {
      assert "\r"[1..] == "" && "" + "\r" == "\r";
      assert TrimStart("\r") == "";
    } else {
      assert (s + "\r")[0] == s[0] && (s + "\r")[1..] == s[1..] + "\r";
      if IsSpace(s[0]) {
        TrimCr(s[1..]);
      } else {
        TrimEndCr(s);
      }
    }
  }

  /** Every line that ends in CR LF is blank or structured. */
  predicate CarriageReturnsHarmless(parse: LineParser, body: string) {
    var pieces := Split(body, '\n');
    forall i :: 0 <= i < |pieces| - 1 ==> LineHarmless(parse, pieces[i])
  }

  predicate LineHarmless(parse: LineParser, line: string) {
    line == DropCr(line) || Blank(line) || ParseLine(parse, line).Some?
  }

  lemma LineWithCr(parse: LineParser, line: string)
    ensures var l := line + "\r";
            |LineEntries(parse, l)| == |LineEntries(parse, line)| &&
            (LineEntries(parse, l) == LineEntries(parse, line) <==> Blank(l) || ParseLine(parse, l).Some?)
  {
    TrimCr(line);
    assert |line + "\r" + "\n"| != |line + "\n"|;
  }

  lemma LineWithoutCr(parse: LineParser, line: string)
    ensures |LineEntries(parse, line)| == |LineEntries(parse, DropCr(line))|
    ensures LineEntries(parse, line) == LineEntries(parse, DropCr(line)) <==> LineHarmless(parse, line)
  {
    if line != DropCr(line) {
      LineWithCr(parse, DropCr(line));
      assert line == DropCr(line) + "\r";
    }
  }

  function Flatten(groups: seq<seq<Entry>>): seq<Entry> {
    if groups == [] then [] else Flatten(groups[..|groups| - 1]) + groups[|groups| - 1]
  }

  function Groups(parse: LineParser, lines: seq<string>): (groups: seq<seq<Entry>>)
    ensures |groups| == |lines| && forall i :: 0 <= i < |lines| ==> groups[i] == LineEntries(parse, lines[i])
  {
    seq(|lines|, i requires 0 <= i < |lines| => LineEntries(parse, lines[i]))
  }

  lemma {:induction false} LinesAreGroups(parse: LineParser, lines: seq<string>)
    ensures LinesEntries(parse, lines) == Flatten(Groups(parse, lines))
  {
    if lines != [] {
      var n := |lines| - 1;
      LinesAreGroups(parse, lines[..n]);
      LinesStep(parse, lines, n);
      assert lines[..n + 1] == lines;
      assert Groups(parse, lines)[..n] == Groups(parse, lines[..n]);
    }
  }

  /** Two lists whose groups of entries are equally long agree exactly when each group does. */
  lemma {:induction false} GroupsAgree(x: seq<seq<Entry>>, y: seq<seq<Entry>>)
    requires |x| == |y| && forall i :: 0 <= i < |x| ==> |x[i]| == |y[i]|
    ensures Flatten(x) == Flatten(y) <==> x == y
  {
    if x != [] {
      var n := |x| - 1;
      GroupsAgree(x[..n], y[..n]);
      SuffixesAgree(Flatten(x[..n]), x[n], Flatten(y[..n]), y[n]);
      assert x == x[..n] + [x[n]] && y == y[..n] + [y[n]];
    }
  }

  lemma SuffixesAgree<T>(s: seq<T>, x: seq<T>, t: seq<T>, y: seq<T>)
    requires |x| == |y|
    ensures s + x == t + y <==> s == t && x == y
  {
    if s + x == t + y {
      assert |s| == |t|;
      assert (s + x)[..|s|] == s && (t + y)[..|t|] == t;
      assert (s + x)[|s|..] == x && (t + y)[|t|..] == y;
    }
  }

  /** A piece between line feeds and the batch line at its place give entries of one number. */
  lemma PieceAgainstLine(parse: LineParser, body: string, i: nat)
    requires i < |Split(body, '\n')|
    ensures var piece, line := Split(body, '\n')[i], BatchLines(body)[i];
            |LineEntries(parse, piece)| == |LineEntries(parse, line)| &&
            (LineEntries(parse, piece) == LineEntries(parse, line) <==>
             i == |Split(body, '\n')| - 1 || LineHarmless(parse, piece))
  {
    LineWithoutCr(parse, Split(body, '\n')[i]);
  }

  lemma LineFeedsAgainstCrLf(parse: LineParser, body: string)
    ensures LineFeedEntries(parse, body) == Batch(parse, body) <==> CarriageReturnsHarmless(parse, body)
  {
    var pieces, lines := Split(body, '\n'), BatchLines(body);
    var x, y := Groups(parse, pieces), Groups(parse, lines);
    LinesAreGroups(parse, pieces);
    LinesAreGroups(parse, lines);
    forall i | 0 <= i < |pieces|
      ensures |x[i]| == |y[i]|
    {
      PieceAgainstLine(parse, body, i);
    }
    GroupsAgree(x, y);
    if x == y {
      forall i | 0 <= i < |pieces| - 1
        ensures LineHarmless(parse, pieces[i])
      {
        PieceAgainstLine(parse, body, i);
      }
    }
    if CarriageReturnsHarmless(parse, body) {
      forall i | 0 <= i < |pieces|
        ensures x[i] == y[i]
      {
        PieceAgainstLine(parse, body, i);
      }
    }
  }

  /** Streaming refines batch: however a body is cut, once its first chunk shows it to be
      structured, the stream yields the batch entries exactly when every CR LF line is
      blank or structured. */
  lemma {:induction false} StreamIsBatch(parse: LineParser, chunks: seq<string>)
    requires chunks != [] && LooksStructured(chunks[0])
    ensures Streamed(parse, chunks) == Batch(parse, Concat(chunks))
            <==> CarriageReturnsHarmless(parse, Concat(chunks))
  {
    LineFeedsAgainstCrLf(parse, Concat(chunks));
  }

  /** A raw stream passes the body through unchanged. */
  lemma {:induction false} RawStreamIsBody(chunks: seq<string>)
    ensures Messages(RawEntries(chunks)) == Concat(chunks)
  {
    if chunks != [] {
      RawStreamIsBody(chunks[1..]);
      assert RawEntries(chunks)[1..] == RawEntries(chunks[1..]);
    }
  }

  lemma {:induction false} LooksStructuredFront(a: string, b: string)
    ensures if Blank(a) then !LooksStructured(a) && LooksStructured(a + b) == LooksStructured(b)
            else LooksStructured(a + b) == LooksStructured(a)
  {
    if a == "" {
      assert a + b == b;
    } else {
      assert (a + b)[0] == a[0] && (a + b)[1..] == a[1..] + b;
      if IsSpace(a[0]) {
        LooksStructuredFront(a[1..], b);
      } else {
        assert (a + b)[..1] == a[..1];
      }
    }
  }

  /** The stream picks the mode the batch decoder would pick for the whole body,
      unless the body is structured and the first chunk is blank. */
  lemma ModeMatchesBody(chunks: seq<string>)
    requires chunks != []
    ensures LooksStructured(chunks[0]) == LooksStructured(Concat(chunks))
            <==> !(Blank(chunks[0]) && LooksStructured(Concat(chunks)))
  {
    LooksStructuredFront(chunks[0], Concat(chunks[1..]));
  }

  /** What fetching the same body in one piece gives. */
  function Fetched(parse: LineParser, body: string): seq<Entry> {
    if LooksStructured(body) then Batch(parse, body) else [Entry(Stdout, body)]
  }

  /** For chunkings whose first chunk is not blank: two of the same structured body give the
      same entries; they are the entries of the fetched body exactly when every CR LF line
      is blank or structured; and a raw stream shows the text of the fetched body. */
  lemma {:induction false} ChunkingDoesNotMatter(parse: LineParser, chunks: seq<string>, other: seq<string>)
    requires chunks != [] && !Blank(chunks[0]) && other != [] && !Blank(other[0])
    requires Concat(chunks) == Concat(other)
    ensures var body := Concat(chunks);
            if LooksStructured(body) then
              Streamed(parse, chunks) == Streamed(parse, other) &&
              (Streamed(parse, chunks) == Fetched(parse, body) <==> CarriageReturnsHarmless(parse, body))
            else Messages(Streamed(parse, chunks)) == body == Messages(Fetched(parse, body))
  {
    ModeMatchesBody(chunks);
    ModeMatchesBody(other);
    if LooksStructured(chunks[0]) {
      StreamIsBatch(parse, chunks);
    } else {
      RawStreamIsBody(chunks);
      MessageOf(Entry(Stdout, Concat(chunks)));
    }
  }

  // ----- where the stream and the batch differ

  /** An unstructured line that ends in CR LF keeps its carriage return in the stream only. */
  lemma StreamDiffersFromBatch(parse: LineParser)
    requires parse("{") == None
    ensures Streamed(parse, ["{\r\n"]) != Batch(parse, "{\r\n")
  {
    var body := "{\r\n";
    assert body == "{\r" + ['\n'] + "";
    SplitFirstThen("{\r", "", '\n');
    assert Split(body, '\n') == ["{\r", ""];
    TrimCr("{");
    assert "{" + "\r" == "{\r";
    TightBrace();
    var line := Split(body, '\n')[0];
    assert line == "{\r" && |DropCr(line)| == 1;
    assert !Blank(line) && ParseLine(parse, line).None?;
    assert !CarriageReturnsHarmless(parse, body);
    assert body == Concat([body]) by {
      assert body + "" == body;
    }
    LooksStructuredFront(body, "");
    StreamIsBatch(parse, [body]);
  }

  lemma TightBrace()
    ensures TrimStart("{") == "{" == Trim("{") && !Blank("{")
  {
  }

  /** A blank first chunk makes a structured body raw. */
  lemma BlankFirstChunk()
    ensures LooksStructured(Concat([" ", "{"])) && !LooksStructured([" ", "{"][0])
  {
    assert [" ", "{"][1..] == ["{"] && ["{"][1..] == [];
    assert Concat([" ", "{"]) == " {";
    TightBrace();
    assert " {"[1..] == "{" && " "[1..] == "";
  }

  // ----- what single lines and plain text become

  /** A blank line is dropped, a structured one gives its entry, and any other goes to
      standard output with a line feed behind it. */
  lemma EntriesOfLine(parse: LineParser, line: string)
    ensures Trim(line) == "" ==> LineEntries(parse, line) == []
    ensures Trim(line) != "" && parse(Trim(line)).Some? ==> LineEntries(parse, line) == [parse(Trim(line)).value]
    ensures Trim(line) != "" && parse(Trim(line)) == None ==>
              LineEntries(parse, line) == [Entry(Stdout, line + "\n")]
  {
    BlankTrim(line);
  }

  /** A line of ordinary text, as it stands in a body. */
  predicate IsPlain(parse: LineParser, line: string) {
    && '\n' !in line && (line != "" ==> line[|line| - 1] != '\r')
    && Trim(line) != "" && parse(Trim(line)) == None
  }

  /** A body of ordinary lines, with either line end between them, comes out on standard
      output line by line, each with a line feed. */
  lemma {:induction false} PlainBody(parse: LineParser, lines: seq<string>, crlf: bool)
    requires lines != [] && forall i :: 0 <= i < |lines| ==> IsPlain(parse, lines[i])
    ensures var entries := Batch(parse, Join(lines, if crlf then "\r\n" else "\n"));
            |entries| == |lines| &&
            forall i :: 0 <= i < |lines| ==> entries[i] == Entry(Stdout, lines[i] + "\n")
  {
    PlainLines(lines, crlf);
    PlainEntries(parse, lines);
  }

  lemma {:induction false} PlainEntries(parse: LineParser, lines: seq<string>)
    requires forall i :: 0 <= i < |lines| ==> IsPlain(parse, lines[i])
    ensures |LinesEntries(parse, lines)| == |lines|
    ensures forall i :: 0 <= i < |lines| ==> LinesEntries(parse, lines)[i] == Entry(Stdout, lines[i] + "\n")
  {
    if lines != [] {
      assert IsPlain(parse, lines[0]);
      EntriesOfLine(parse, lines[0]);
      PlainEntries(parse, lines[1..]);
    }
  }

  /** The decoder splits at either line end. */
  lemma {:induction false} PlainLines(lines: seq<string>, crlf: bool)
    requires lines != []
    requires forall i :: 0 <= i < |lines| ==> '\n' !in lines[i] && DropCr(lines[i]) == lines[i]
    ensures BatchLines(Join(lines, if crlf then "\r\n" else "\n")) == lines
  {
    var text := Join(lines, if crlf then "\r\n" else "\n");
    PlainPieces(lines, crlf);
    var pieces := Split(text, '\n');
    forall i | 0 <= i < |lines| ensures BatchLines(text)[i] == lines[i] {
      if i < |lines| - 1 && crlf {
        assert (lines[i] + "\r")[..|lines[i]|] == lines[i];
      }
    }
  }

  lemma {:induction false} PlainPieces(lines: seq<string>, crlf: bool)
    requires lines != [] && forall i :: 0 <= i < |lines| ==> '\n' !in lines[i]
    ensures var pieces := Split(Join(lines, if crlf then "\r\n" else "\n"), '\n');
            |pieces| == |lines| &&
            forall i :: 0 <= i < |lines| ==>
              pieces[i] == if i < |lines| - 1 && crlf then lines[i] + "\r" else lines[i]
  {
    var first := lines[0];
    if |lines| == 1 {
      SplitFirst(first, '\n');
    } else {
      var rest := Join(lines[1..], if crlf then "\r\n" else "\n");
      PlainPieces(lines[1..], crlf);
      var head := if crlf then first + "\r" else first;
      assert Join(lines, if crlf then "\r\n" else "\n") == head + ['\n'] + rest;
      SplitFirstThen(head, rest, '\n');
    }
  }

  /** A raw stream sends every chunk, as it is, to standard output, and so does the fetch. */
  lemma RawChunks(parse: LineParser, chunks: seq<string>, body: string)
    requires chunks != [] && !LooksStructured(chunks[0]) && !LooksStructured(body)
    ensures Fetched(parse, body) == [Entry(Stdout, body)]
    ensures |Streamed(parse, chunks)| == |chunks|
    ensures forall i :: 0 <= i < |chunks| ==> Streamed(parse, chunks)[i] == Entry(Stdout, chunks[i])
  {
  }
}
