/** The documentation file system tool wraps the exit code and both output
    streams of a command into one text. This is its reader and the round trip. */
module DocsOutput {
  import opened Text
  import opened Decimal

  const STDOUT := "--- stdout ---"
  const STDERR := "--- stderr ---"
  const EXIT := "exit:"

  datatype DocsFsResult = DocsFsResult(exit: int, stdout: string, stderr: string)

  // ----- the exit line

  datatype ExitLine = ExitLine(exit: int, rest: string)

  function DropOne(s: string, c: char): string {
    if s != "" && s[0] == c then s[1..] else s
  }

  /** An optional sign, digits, and an optional line end. */
  function TakeNumber(s: string): Option<ExitLine> {
    var digits := DropOne(s, '-');
    var n := DigitSpan(digits);
    if n == 0 then None
    else
      var value: int := Number(digits[..n]);
      Some(ExitLine(if digits == s then value else -value, DropOne(DropOne(digits[n..], '\r'), '\n')))
  }

  /** The exit line at the front, as the pattern matches it. */
  function TakeExit(text: string): Option<ExitLine> {
    if StartsWith(text, EXIT) then TakeNumber(TrimStart(text[|EXIT|..])) else None
  }

  // ----- the sections

  datatype Section = Outside | InStdout | InStderr

  datatype Sections = Sections(section: Section, out: seq<string>, err: seq<string>)

  function Step(st: Sections, line: string): Sections {
    if line == STDOUT then st.(section := InStdout)
    else if line == STDERR then st.(section := InStderr)
    else
      match st.section
      case InStderr => st.(err := st.err + [line])
      case InStdout => st.(out := st.out + [line])
      case Outside => st
  }

  function Run(st: Sections, lines: seq<string>): Sections
    decreases |lines|
  {
    if lines == [] then st else Run(Step(st, lines[0]), lines[1..])
  }

  function ParsedSections(exit: int, rest: string): DocsFsResult {
    var end := Run(Sections(Outside, [], []), Split(rest, '\n'));
    if end.section.Outside? then DocsFsResult(exit, rest, "")
    else DocsFsResult(exit, Join(end.out, "\n"), Join(end.err, "\n"))
  }

  function Parsed(text: string): DocsFsResult {
    match TakeExit(text)
    case Some(line) => ParsedSections(line.exit, line.rest)
    case None => ParsedSections(0, text)
  }

  /** parseDocsFsOutput: one pass over the lines, collecting those of either section. */
  method ParseDocsFsOutput(text: string) returns (r: DocsFsResult)
    ensures r == Parsed(text)
  {
    var exit, rest := 0, text;
    var exitMatch := TakeExit(text);
    if exitMatch.Some? {
      exit, rest := exitMatch.value.exit, exitMatch.value.rest;
    }
    var section, out, err := Outside, [], [];
    var lines := Split(rest, '\n');
    for i := 0 to |lines|
      invariant Run(Sections(section, out, err), lines[i..]) == Run(Sections(Outside, [], []), lines)
    {
      var line := lines[i];
      assert lines[i..][1..] == lines[i + 1..];
      if line == STDOUT {
        section := InStdout;
      } else if line == STDERR {
        section := InStderr;
      } else if section == InStderr {
        err := err + [line];
      } else if section == InStdout {
        out := out + [line];
      }
    }
    if section == Outside {
      return DocsFsResult(exit, rest, "");
    }
    return DocsFsResult(exit, Join(out, "\n"), Join(err, "\n"));
  }

  // ----- the tool's side

  function Signed(n: int): string {
    if n < 0 then ['-'] + Numeral(-n) else Numeral(n)
  }

  /** What the tool prints for a command with both sections. */
  function Wrapping(r: DocsFsResult): string {
    EXIT + ([' '] + (Signed(r.exit) + (['\n'] + Body(r))))
  }

  function Body(r: DocsFsResult): string {
    Join([STDOUT] + Split(r.stdout, '\n') + ([STDERR] + Split(r.stderr, '\n')), "\n")
  }

  predicate IsMarker(line: string) {
    line == STDOUT || line == STDERR
  }

  predicate NoMarkers(lines: seq<string>) {
    forall i :: 0 <= i < |lines| ==> !IsMarker(lines[i])
  }

  lemma NumeralIsNoSign(n: nat)
    ensures Numeral(n) != "" && IsDigit(Numeral(n)[0])
  {
  }

  lemma PrefixThen(p: string, s: string)
    ensures StartsWith(p + s, p) && (p + s)[|p|..] == s
  {
  }

  lemma EndTaken(end: string, rest: string)
    requires end == "\n" || end == "\r\n"
    ensures DropOne(DropOne(end + rest, '\r'), '\n') == rest
    ensures end + rest != "" && !IsDigit((end + rest)[0])
  {
    if end == "\r\n" {
      assert (end + rest)[1..] == ['\n'] + rest && (['\n'] + rest)[1..] == rest;
    } else {
      assert (end + rest)[1..] == rest;
    }
  }

  /** Digits behind an optional sign. */
  lemma NumberTaken(s: string, unsigned: string, digits: string, tail: string)
    requires unsigned == DropOne(s, '-') == digits + tail
    requires digits != "" && DigitSpan(unsigned) == |digits|
    ensures TakeNumber(s) ==
            Some(ExitLine(if unsigned == s then Number(digits) else 0 - Number(digits),
                          DropOne(DropOne(tail, '\r'), '\n')))
  {
    assert unsigned[..|digits|] == digits && unsigned[|digits|..] == tail;
  }

  lemma DigitsTaken(n: nat, end: string, rest: string)
    requires end == "\n" || end == "\r\n"
    ensures TakeNumber(Numeral(n) + (end + rest)) == Some(ExitLine(n, rest))
    ensures TakeNumber(['-'] + (Numeral(n) + (end + rest))) == Some(ExitLine(0 - n, rest))
  {
    var digits, s := Numeral(n), Numeral(n) + (end + rest);
    NumeralIsNoSign(n);
    EndTaken(end, rest);
    SpanOf(digits, end + rest);
    NumberOfNumeral(n);
    NumberTaken(s, s, digits, end + rest);
    assert (['-'] + s)[1..] == s;
    NumberTaken(['-'] + s, s, digits, end + rest);
  }

  lemma SignedTaken(n: int, end: string, rest: string)
    requires end == "\n" || end == "\r\n"
    ensures TakeNumber(Signed(n) + (end + rest)) == Some(ExitLine(n, rest))
  {
    if n < 0 {
      DigitsTaken(-n, end, rest);
      Associate(['-'], Numeral(-n), end + rest);
    } else {
      DigitsTaken(n, end, rest);
    }
  }

  lemma {:induction false} SpacesTrimmed(spaces: string, s: string)
    requires (forall i :: 0 <= i < |spaces| ==> IsSpace(spaces[i])) && s != "" && !IsSpace(s[0])
    ensures TrimStart(spaces + s) == s
  {
    if spaces == "" {
      assert spaces + s == s;
    } else {
      SpacesTrimmed(spaces[1..], s);
      assert (spaces + s)[1..] == spaces[1..] + s;
    }
  }

  lemma NumberBehind(spaces: string, s: string)
    requires (forall i :: 0 <= i < |spaces| ==> IsSpace(spaces[i])) && s != "" && !IsSpace(s[0])
    ensures TakeExit("exit:" + (spaces + s)) == TakeNumber(s)
  {
    SpacesTrimmed(spaces, s);
    PrefixThen("exit:", spaces + s);
  }

  lemma SignedFront(n: int, tail: string)
    ensures Signed(n) + tail != "" && !IsSpace((Signed(n) + tail)[0])
  {
    NumeralIsNoSign(if n < 0 then -n else n);
  }

  /** The exit line, with any white space, sign and line end. */
  lemma ExitLineTaken(spaces: string, n: int, end: string, rest: string)
    requires (forall i :: 0 <= i < |spaces| ==> IsSpace(spaces[i])) && (end == "\n" || end == "\r\n")
    ensures TakeExit("exit:" + (spaces + (Signed(n) + (end + rest)))) == Some(ExitLine(n, rest))
  {
    SignedFront(n, end + rest);
    SignedTaken(n, end, rest);
    NumberBehind(spaces, Signed(n) + (end + rest));
  }

  lemma ExitTaken(r: DocsFsResult)
    ensures TakeExit(Wrapping(r)) == Some(ExitLine(r.exit, Body(r)))
  {
    ExitLineTaken([' '], r.exit, ['\n'], Body(r));
  }

  lemma {:induction false} RunAppend(st: Sections, a: seq<string>, b: seq<string>)
    ensures Run(st, a + b) == Run(Run(st, a), b)
    decreases |a|
  {
    if a == [] {
      assert a + b == b;
    } else {
      RunAppend(Step(st, a[0]), a[1..], b);
      assert (a + b)[1..] == a[1..] + b;
    }
  }

  /** The section that the last marker line opens. */
  function SectionAfter(start: Section, lines: seq<string>): Section {
    if lines == [] then start
    else
      var last := lines[|lines| - 1];
      if last == STDOUT then InStdout
      else if last == STDERR then InStderr
      else SectionAfter(start, lines[..|lines| - 1])
  }

  /** The lines that are no markers and stand in a given section, in order. */
  function LinesIn(start: Section, lines: seq<string>, section: Section): seq<string> {
    if lines == [] then []
    else
      var front, last := lines[..|lines| - 1], lines[|lines| - 1];
      LinesIn(start, front, section) +
      if !IsMarker(last) && SectionAfter(start, front) == section then [last] else []
  }

  /** Every line goes to the section it stands in; markers and lines before the first one go nowhere. */
  lemma {:induction false} RunCollects(st: Sections, lines: seq<string>)
    ensures Run(st, lines) ==
            Sections(SectionAfter(st.section, lines),
                     st.out + LinesIn(st.section, lines, InStdout), st.err + LinesIn(st.section, lines, InStderr))
    decreases |lines|
  {
    if lines == [] {
      assert st.out + [] == st.out && st.err + [] == st.err;
    } else {
      var front, last := lines[..|lines| - 1], lines[|lines| - 1];
      RunCollects(st, front);
      assert lines == front + [last] && [last][1..] == [];
      RunAppend(st, front, [last]);
      Collect(st.out, LinesIn(st.section, front, InStdout), last);
      Collect(st.err, LinesIn(st.section, front, InStderr), last);
    }
  }

  lemma Collect(a: seq<string>, b: seq<string>, last: string)
    ensures a + (b + [last]) == (a + b) + [last] && a + (b + []) == a + b
  {
    assert b + [] == b;
  }

  lemma {:induction false} RunPlain(st: Sections, lines: seq<string>)
    requires NoMarkers(lines) && !st.section.Outside?
    ensures Run(st, lines) == if st.section.InStdout? then st.(out := st.out + lines) else st.(err := st.err + lines)
    decreases |lines|
  {
    if lines != [] {
      RunPlain(Step(st, lines[0]), lines[1..]);
      assert !IsMarker(lines[0]);
      Associate(if st.section.InStdout? then st.out else st.err, [lines[0]], lines[1..]);
      assert [lines[0]] + lines[1..] == lines;
    } else {
      assert st.out + [] == st.out && st.err + [] == st.err;
    }
  }

  lemma RunSection(st: Sections, marker: string, lines: seq<string>)
    requires IsMarker(marker)
    ensures Run(st, [marker] + lines) == Run(Step(st, marker), lines)
  {
    assert ([marker] + lines)[1..] == lines;
  }

  /** Characters of the lines, with one line end each. */
  function Weight(lines: seq<string>): nat {
    if lines == [] then 0 else |lines[0]| + 1 + Weight(lines[1..])
  }

  function MarkerCount(lines: seq<string>): nat {
    if lines == [] then 0 else (if IsMarker(lines[0]) then 1 else 0) + MarkerCount(lines[1..])
  }

  lemma {:induction false} WeightAppend(a: seq<string>, b: seq<string>)
    ensures Weight(a + b) == Weight(a) + Weight(b)
    ensures MarkerCount(a + b) == MarkerCount(a) + MarkerCount(b)
  {
    if a == [] {
      assert a + b == b;
    } else {
      WeightAppend(a[1..], b);
      assert (a + b)[1..] == a[1..] + b;
    }
  }

  lemma {:induction false} WeightOfJoin(lines: seq<string>)
    ensures |Join(lines, "\n")| == if lines == [] then 0 else Weight(lines) - 1
  {
    if |lines| > 1 {
      WeightOfJoin(lines[1..]);
    } else if |lines| == 1 {
      assert lines[1..] == [];
    }
  }

  lemma {:induction false} NoMarkersCount(lines: seq<string>)
    ensures MarkerCount(lines) == 0 <==> NoMarkers(lines)
  {
    if lines != [] {
      NoMarkersCount(lines[1..]);
      if NoMarkers(lines[1..]) && !IsMarker(lines[0]) {
        forall i | 0 <= i < |lines| ensures !IsMarker(lines[i]) {
          assert i > 0 ==> lines[i] == lines[1..][i - 1];
        }
      }
      if NoMarkers(lines) {
        assert forall i :: 0 <= i < |lines[1..]| ==> lines[1..][i] == lines[i + 1];
      }
    }
  }

  /** Marker lines are dropped and everything else inside the sections is kept. */
  lemma {:induction false} RunWeight(st: Sections, lines: seq<string>)
    requires !st.section.Outside?
    ensures var end := Run(st, lines);
            !end.section.Outside? &&
            Weight(end.out) + Weight(end.err) + 15 * MarkerCount(lines) ==
            Weight(st.out) + Weight(st.err) + Weight(lines)
    decreases |lines|
  {
    if lines != [] {
      RunWeight(Step(st, lines[0]), lines[1..]);
      WeightAppend(st.out, [lines[0]]);
      WeightAppend(st.err, [lines[0]]);
      assert Weight([lines[0]]) == |lines[0]| + 1;
      if IsMarker(lines[0]) {
        MarkerLength(lines[0]);
      }
    }
  }

  lemma MarkerLength(line: string)
    requires IsMarker(line)
    ensures |line| == 14
  {
  }

  lemma LinesOfBody(r: DocsFsResult)
    ensures Split(Body(r), '\n') == [STDOUT] + Split(r.stdout, '\n') + ([STDERR] + Split(r.stderr, '\n'))
  {
    var lines := [STDOUT] + Split(r.stdout, '\n') + ([STDERR] + Split(r.stderr, '\n'));
    MarkersAreLines();
    assert forall p :: p in lines ==> '\n' !in p;
    SplitJoin(lines, '\n');
  }

  lemma MarkersAreLines()
    ensures '\n' !in STDOUT && '\n' !in STDERR
  {
  }

  /** The reader gives back what the tool wrapped, exactly when no line of either stream
      is itself a section marker. */
  lemma WrappingIsRead(r: DocsFsResult)
    ensures Parsed(Wrapping(r)) == r <==> NoMarkers(Split(r.stdout, '\n')) && NoMarkers(Split(r.stderr, '\n'))
  {
    ExitTaken(r);
    LinesOfBody(r);
    JoinSplit(r.stdout, '\n');
    JoinSplit(r.stderr, '\n');
    var out, err := Split(r.stdout, '\n'), Split(r.stderr, '\n');
    if NoMarkers(out) && NoMarkers(err) {
      SectionsAreRead(out, err);
    } else {
      SectionsAreLost(out, err);
      WeightOfJoin(out);
      WeightOfJoin(err);
    }
  }

  lemma StepIntoSections(out: seq<string>)
    ensures Step(Sections(Outside, [], []), STDOUT) == Sections(InStdout, [], [])
    ensures Step(Sections(InStdout, out, []), STDERR) == Sections(InStderr, out, [])
  {
    assert STDERR[4] == 's' && STDERR[7] == 'e' && STDOUT[7] == 'o';
  }

  lemma SectionsAreRead(out: seq<string>, err: seq<string>)
    requires NoMarkers(out) && NoMarkers(err)
    ensures Run(Sections(Outside, [], []), [STDOUT] + out + ([STDERR] + err)) == Sections(InStderr, out, err)
  {
    var st := Sections(InStdout, [], []);
    StepIntoSections(out);
    Associate([STDOUT], out, [STDERR] + err);
    RunSection(Sections(Outside, [], []), STDOUT, out + ([STDERR] + err));
    RunAppend(st, out, [STDERR] + err);
    RunPlain(st, out);
    assert [] + out == out && [] + err == err;
    RunSection(Sections(InStdout, out, []), STDERR, err);
    RunPlain(Sections(InStderr, out, []), err);
  }

  lemma SectionsAreLost(out: seq<string>, err: seq<string>)
    requires !NoMarkers(out) || !NoMarkers(err)
    requires out != [] && err != []
    ensures var end := Run(Sections(Outside, [], []), [STDOUT] + out + ([STDERR] + err));
            !end.section.Outside? &&
            |Join(end.out, "\n")| + |Join(end.err, "\n")| < Weight(out) - 1 + Weight(err) - 1
  {
    var st := Sections(InStdout, [], []);
    var lines := out + ([STDERR] + err);
    Associate([STDOUT], out, [STDERR] + err);
    RunSection(Sections(Outside, [], []), STDOUT, lines);
    RunWeight(st, lines);
    var end := Run(st, lines);
    WeightOfJoin(end.out);
    WeightOfJoin(end.err);
    WeightAppend(out, [STDERR] + err);
    WeightAppend([STDERR], err);
    OneMarker();
    NoMarkersCount(out);
    NoMarkersCount(err);
  }

  lemma OneMarker()
    ensures MarkerCount([STDERR]) == 1 && Weight([STDERR]) == 15
  {
    assert [STDERR][1..] == [];
    MarkerLength(STDERR);
  }

  // ----- texts written out

  /** A text is read as its exit code, or 0 without an exit line, with what stands in either
      section; lines in front of the sections are dropped, and without any section all of it
      is standard output. */
  lemma TextRead(spaces: string, n: int, end: string, before: seq<string>, out: seq<string>, err: seq<string>)
    requires (forall i :: 0 <= i < |spaces| ==> IsSpace(spaces[i])) && (end == "\n" || end == "\r\n")
    requires IsText(before) && IsText(out) && IsText(err) && before != []
    ensures var exitLine := "exit:" + (spaces + (Signed(n) + end));
            var both := Join(before + ["--- stdout ---"] + out + ["--- stderr ---"] + err, "\n");
            var outOnly := Join(before + ["--- stdout ---"] + out, "\n");
            var errOnly := Join(before + ["--- stderr ---"] + err, "\n");
            var neither := Join(before, "\n");
            && Parsed(exitLine + both) == DocsFsResult(n, Join(out, "\n"), Join(err, "\n"))
            && Parsed(exitLine + outOnly) == DocsFsResult(n, Join(out, "\n"), "")
            && Parsed(exitLine + errOnly) == DocsFsResult(n, "", Join(err, "\n"))
            && Parsed(exitLine + neither) == DocsFsResult(n, neither, "")
            && (!StartsWith(neither, "exit:") ==> Parsed(neither) == DocsFsResult(0, neither, ""))
  {
    BothRead(before, out, err);
    OneRead(before, "--- stdout ---", out);
    OneRead(before, "--- stderr ---", err);
    NoneRead(before);
    ExitThen(spaces, n, end, Join(before + ["--- stdout ---"] + out + ["--- stderr ---"] + err, "\n"));
    ExitThen(spaces, n, end, Join(before + ["--- stdout ---"] + out, "\n"));
    ExitThen(spaces, n, end, Join(before + ["--- stderr ---"] + err, "\n"));
    ExitThen(spaces, n, end, Join(before, "\n"));
    var neither := Join(before, "\n");
    if !StartsWith(neither, "exit:") {
      assert Parsed(neither) == ParsedSections(0, neither);
    }
  }

  /** Lines that are no markers. */
  predicate IsText(lines: seq<string>) {
    NoMarkers(lines) && forall i :: 0 <= i < |lines| ==> '\n' !in lines[i]
  }

  lemma ExitThen(spaces: string, n: int, end: string, rest: string)
    requires (forall i :: 0 <= i < |spaces| ==> IsSpace(spaces[i])) && (end == "\n" || end == "\r\n")
    ensures Parsed("exit:" + (spaces + (Signed(n) + end)) + rest) == ParsedSections(n, rest)
  {
    ExitLineTaken(spaces, n, end, rest);
    Associate("exit:", spaces + (Signed(n) + end), rest);
    Associate(spaces, Signed(n) + end, rest);
    Associate(Signed(n), end, rest);
  }

  lemma RunBefore(before: seq<string>)
    requires NoMarkers(before)
    ensures Run(Sections(Outside, [], []), before) == Sections(Outside, [], [])
    decreases |before|
  {
    if before != [] {
      assert !IsMarker(before[0]);
      RunBefore(before[1..]);
    }
  }

  lemma LinesBack(lines: seq<string>)
    requires lines != [] && forall i :: 0 <= i < |lines| ==> '\n' !in lines[i]
    ensures Split(Join(lines, "\n"), '\n') == lines
  {
    assert forall p :: p in lines ==> '\n' !in p;
    assert "\n" == ['\n'];
    SplitJoin(lines, '\n');
  }

  lemma OneSection(before: seq<string>, marker: string, lines: seq<string>)
    requires NoMarkers(before) && NoMarkers(lines) && IsMarker(marker)
    ensures Run(Sections(Outside, [], []), before + [marker] + lines) ==
            if marker == STDOUT then Sections(InStdout, lines, []) else Sections(InStderr, [], lines)
  {
    var st := Sections(Outside, [], []);
    RunBefore(before);
    Associate(before, [marker], lines);
    RunAppend(st, before, [marker] + lines);
    RunSection(st, marker, lines);
    RunPlain(Step(st, marker), lines);
    assert [] + lines == lines;
  }

  lemma OneRead(before: seq<string>, marker: string, lines: seq<string>)
    requires IsText(before) && IsText(lines) && IsMarker(marker)
    ensures forall exit: int :: ParsedSections(exit, Join(before + [marker] + lines, "\n")) ==
              if marker == STDOUT then DocsFsResult(exit, Join(lines, "\n"), "")
              else DocsFsResult(exit, "", Join(lines, "\n"))
  {
    MarkersAreLines();
    OneSection(before, marker, lines);
    LinesBack(before + [marker] + lines);
    assert Join([], "\n") == "";
  }

  lemma BothRead(before: seq<string>, out: seq<string>, err: seq<string>)
    requires IsText(before) && IsText(out) && IsText(err)
    ensures forall exit: int ::
              ParsedSections(exit, Join(before + [STDOUT] + out + [STDERR] + err, "\n")) ==
              DocsFsResult(exit, Join(out, "\n"), Join(err, "\n"))
  {
    var st := Sections(Outside, [], []);
    MarkersAreLines();
    OneSection(before, STDOUT, out);
    Associate(before + [STDOUT] + out, [STDERR], err);
    RunAppend(st, before + [STDOUT] + out, [STDERR] + err);
    StepIntoSections(out);
    RunSection(Sections(InStdout, out, []), STDERR, err);
    RunPlain(Sections(InStderr, out, []), err);
    assert [] + err == err;
    LinesBack(before + [STDOUT] + out + [STDERR] + err);
  }

  lemma NoneRead(before: seq<string>)
    requires IsText(before) && before != []
    ensures forall exit: int ::
              ParsedSections(exit, Join(before, "\n")) == DocsFsResult(exit, Join(before, "\n"), "")
  {
    RunBefore(before);
    LinesBack(before);
  }
}
