/** Wrapping whole texts, line by line: a line that fits is kept, one with spaces
    is wrapped, and one without is cut into chunks. */
module WrapLines {
  import opened Text
  import Wrap

  // ----- chunks

  /** Pieces of `size` characters; only the last may be shorter. */
  function Chunks(text: string, size: int): seq<string>
    requires size >= 1 || text == ""
    decreases |text|
  {
    if |text| <= size then [text]
    else if text == "" then []
    else [text[..size]] + Chunks(text[size..], size)
  }

  /** splitIntoChunks; with a size of zero or less its loop ends only for the empty text. */
  method SplitIntoChunks(text: string, maxChunkSize: int) returns (chunks: seq<string>)
    requires maxChunkSize >= 1 || text == ""
    ensures chunks == Chunks(text, maxChunkSize)
  {
    if |text| <= maxChunkSize {
      return [text];
    }
    chunks := [];
    var start := 0;
    while start < |text|
      invariant 0 <= start
      invariant start < |text| ==> chunks + Chunks(text[start..], maxChunkSize) == Chunks(text, maxChunkSize)
      invariant start >= |text| ==> chunks == Chunks(text, maxChunkSize)
    {
      var end := if start + maxChunkSize < |text| then start + maxChunkSize else |text|;
      ghost var before, rest := chunks, text[start..];
      chunks := chunks + [text[start..end]];
      start := start + maxChunkSize;
      if start < |text| {
        assert rest[..maxChunkSize] == text[start - maxChunkSize..end] && rest[maxChunkSize..] == text[start..];
        Associate(before, [rest[..maxChunkSize]], Chunks(text[start..], maxChunkSize));
      } else {
        assert text[start - maxChunkSize..end] == rest;
      }
    }
  }

  lemma {:induction false} ChunksAreTheText(text: string, size: int)
    requires size >= 1
    ensures var c := Chunks(text, size);
            Concat(c) == text && |c| >= 1 &&
            (forall i :: 0 <= i < |c| - 1 ==> |c[i]| == size) &&
            |c[|c| - 1]| <= size && (text != "" ==> c[|c| - 1] != "")
    decreases |text|
  {
    if |text| <= size {
      assert [text][1..] == [];
      assert text + "" == text;
    } else {
      var rest := Chunks(text[size..], size);
      ChunksAreTheText(text[size..], size);
      assert ([text[..size]] + rest)[1..] == rest;
    }
  }

  // ----- when the loops end

  /** The variable `start` of the chunk loop after `n` turns. */
  function StartAfter(size: int, n: nat): int {
    if n == 0 then 0 else StartAfter(size, n - 1) + size
  }

  lemma {:induction false} StartIsMultiple(size: int, n: nat)
    ensures size >= 1 ==> StartAfter(size, n) >= n
    ensures size <= 0 ==> StartAfter(size, n) <= 0
  {
    if n > 0 {
      StartIsMultiple(size, n - 1);
    }
  }

  /** Some turn takes `start` to the end of the text. */
  ghost predicate ChunkLoopEnds(text: string, size: int) {
    exists n: nat :: StartAfter(size, n) >= |text|
  }

  /** splitIntoChunks returns, by its first branch or by the end of its loop, exactly for
      a positive size or the empty text. */
  lemma ChunksReturn(text: string, size: int)
    ensures |text| <= size || ChunkLoopEnds(text, size) <==> size >= 1 || text == ""
  {
    if size >= 1 {
      StartIsMultiple(size, |text|);
      assert StartAfter(size, |text|) >= |text|;
    } else if text == "" {
      assert StartAfter(size, 0) >= |text|;
    } else {
      forall n: nat ensures StartAfter(size, n) < |text| {
        StartIsMultiple(size, n);
      }
    }
  }

  /** Where wrapLines stands: the line it is at, and `start` of the chunk loop in that line. */
  datatype Position = Position(line: nat, start: int)

  predicate TakesOneTurn(line: string, maxWidth: int) {
    |line| <= maxWidth || ' ' in line
  }

  /** One turn: a line is finished at once when it fits or is wrapped by words; else the
      chunk loop takes a turn or ends. */
  function Turn(lines: seq<string>, maxWidth: int, p: Position): Position {
    if p.line >= |lines| then p
    else if TakesOneTurn(lines[p.line], maxWidth) || p.start >= |lines[p.line]| then Position(p.line + 1, 0)
    else p.(start := p.start + maxWidth)
  }

  function Turns(lines: seq<string>, maxWidth: int, p: Position, n: nat): Position {
    if n == 0 then p else Turn(lines, maxWidth, Turns(lines, maxWidth, p, n - 1))
  }

  /** Some number of turns takes wrapLines past its last line. */
  ghost predicate WrapReturns(text: string, maxWidth: int) {
    exists n: nat :: Turns(Split(text, '\n'), maxWidth, Position(0, 0), n).line >= |Split(text, '\n')|
  }

  /** From a position on, some number of turns takes wrapLines to the next line. */
  lemma {:induction false} LineEnds(lines: seq<string>, maxWidth: int, p: Position, n: nat) returns (m: nat)
    requires Turns(lines, maxWidth, Position(0, 0), n) == p && p.line < |lines|
    requires TakesOneTurn(lines[p.line], maxWidth) || p.start >= |lines[p.line]| || maxWidth >= 1
    ensures Turns(lines, maxWidth, Position(0, 0), m) == Position(p.line + 1, 0)
    decreases |lines[p.line]| - p.start
  {
    if TakesOneTurn(lines[p.line], maxWidth) || p.start >= |lines[p.line]| {
      m := n + 1;
    } else {
      m := LineEnds(lines, maxWidth, p.(start := p.start + maxWidth), n + 1);
    }
  }

  lemma {:induction false} LinesEnd(lines: seq<string>, maxWidth: int, k: nat) returns (n: nat)
    requires k <= |lines| && AllTerminate(lines[..k], maxWidth)
    ensures Turns(lines, maxWidth, Position(0, 0), n) == Position(k, 0)
  {
    if k == 0 {
      n := 0;
    } else {
      assert lines[..k][..k - 1] == lines[..k - 1] && lines[..k][k - 1] == lines[k - 1];
      var m := LinesEnd(lines, maxWidth, k - 1);
      assert Terminates(lines[k - 1], maxWidth);
      n := LineEnds(lines, maxWidth, Position(k - 1, 0), m);
    }
  }

  /** No number of turns gets past a line that does not end. */
  lemma {:induction false} StuckAt(lines: seq<string>, maxWidth: int, k: nat, n: nat)
    requires k < |lines| && !Terminates(lines[k], maxWidth)
    ensures var p := Turns(lines, maxWidth, Position(0, 0), n);
            p.line <= k && (p.line == k ==> p.start <= 0)
  {
    if n > 0 {
      StuckAt(lines, maxWidth, k, n - 1);
    }
  }

  /** wrapLines returns exactly when every line fits a positive width, is empty or has a space. */
  lemma WrapReturnsExactly(text: string, maxWidth: int)
    ensures WrapReturns(text, maxWidth) <==> AllTerminate(Split(text, '\n'), maxWidth)
  {
    var lines := Split(text, '\n');
    if AllTerminate(lines, maxWidth) {
      assert lines[..|lines|] == lines;
      var n := LinesEnd(lines, maxWidth, |lines|);
    } else {
      var k :| 0 <= k < |lines| && !Terminates(lines[k], maxWidth);
      forall n: nat ensures Turns(lines, maxWidth, Position(0, 0), n).line < |lines| {
        StuckAt(lines, maxWidth, k, n);
      }
    }
  }

  /** The key column of the key-value table: shrunk in proportion when key and value
      together are wider than the content. */
  function KeyColumn(keyLength: nat, valueLength: nat, content: int): int
    requires keyLength + valueLength > 0
  {
    if keyLength + valueLength > content then content * keyLength / (keyLength + valueLength) else keyLength
  }

  /** Wrapping a key without spaces in its own column returns unless the column has shrunk to nothing. */
  lemma KeyColumnReturns(key: string, valueLength: nat, content: int)
    requires key != "" && ' ' !in key && '\n' !in key
    ensures WrapReturns(key, KeyColumn(|key|, valueLength, content)) <==>
            |key| + valueLength <= content || content * |key| >= |key| + valueLength
  {
    var column := KeyColumn(|key|, valueLength, content);
    SplitFirst(key, '\n');
    WrapReturnsExactly(key, column);
    assert AllTerminate([key], column) ==> Terminates([key][0], column);
    QuotientPositive(content * |key|, |key| + valueLength);
  }

  lemma QuotientPositive(a: int, b: nat)
    requires b > 0
    ensures a / b >= 1 <==> a >= b
  {
  }

  /** A reachable input: the key "id" beside a value of 200 characters on an 80-column terminal. */
  lemma ShortKeyNeverReturns()
    ensures KeyColumn(2, 200, 75) == 0 && !WrapReturns("id", 0)
  {
    var key := "id";
    assert |key| == 2 && ' ' !in key && '\n' !in key;
    KeyColumnReturns(key, 200, 75);
  }

  // ----- lines

  predicate Terminates(line: string, maxWidth: int) {
    maxWidth >= 1 || line == "" || ' ' in line
  }

  predicate AllTerminate(lines: seq<string>, maxWidth: int) {
    forall i :: 0 <= i < |lines| ==> Terminates(lines[i], maxWidth)
  }

  function LinePieces(line: string, maxWidth: int): seq<string>
    requires Terminates(line, maxWidth)
  {
    if |line| <= maxWidth then [line]
    else if ' ' !in line then Chunks(line, maxWidth)
    else Wrap.Wrapped(line, maxWidth)
  }

  function AllPieces(lines: seq<string>, maxWidth: int): seq<string>
    requires AllTerminate(lines, maxWidth)
  {
    if lines == [] then []
    else AllPieces(lines[..|lines| - 1], maxWidth) + LinePieces(lines[|lines| - 1], maxWidth)
  }

  function WrappedLines(text: string, maxWidth: int): seq<string>
    requires AllTerminate(Split(text, '\n'), maxWidth)
  {
    var lines := AllPieces(Split(text, '\n'), maxWidth);
    if lines == [] then [Trim(text)] else lines
  }

  /** wrapLines, for the texts on which it returns. */
  method WrapTextLines(text: string, maxWidth: int) returns (lines: seq<string>)
    requires AllTerminate(Split(text, '\n'), maxWidth)
    ensures lines == WrappedLines(text, maxWidth)
  {
    var input := Split(text, '\n');
    lines := [];
    for i := 0 to |input|
      invariant lines == AllPieces(input[..i], maxWidth)
    {
      var line := input[i];
      assert input[..i + 1][..i] == input[..i];
      assert Terminates(line, maxWidth);
      if |line| <= maxWidth {
        lines := lines + [line];
      } else if ' ' !in line {
        var chunks := SplitIntoChunks(line, maxWidth);
        lines := lines + chunks;
      } else {
        var wrapped := Wrap.WrapText(line, maxWidth);
        lines := lines + wrapped;
      }
    }
    assert input[..|input|] == input;
    if |lines| == 0 {
      lines := lines + [Trim(text)];
    }
  }

  // ----- nothing is lost

  /** The characters of a text other than white space, in order. */
  function Ink(s: string): string {
    if s == "" then "" else (if IsSpace(s[0]) then "" else [s[0]]) + Ink(s[1..])
  }

  lemma {:induction false} InkAppend(a: string, b: string)
    ensures Ink(a + b) == Ink(a) + Ink(b)
  {
    if a == "" {
      assert a + b == b;
    } else {
      InkAppend(a[1..], b);
      assert (a + b)[1..] == a[1..] + b;
      Associate(if IsSpace(a[0]) then "" else [a[0]], Ink(a[1..]), Ink(b));
    }
  }

  lemma InkConcat(a: seq<string>, b: seq<string>)
    ensures Ink(Concat(a + b)) == Ink(Concat(a)) + Ink(Concat(b))
  {
    ConcatAppend(a, b);
    InkAppend(Concat(a), Concat(b));
  }

  lemma InkOne(s: string)
    ensures Ink(Concat([s])) == Ink(s)
  {
    assert [s][1..] == [] && s + "" == s;
  }

  lemma {:induction false} InkTrimStart(s: string)
    ensures Ink(TrimStart(s)) == Ink(s)
  {
    if s != "" && IsSpace(s[0]) {
      InkTrimStart(s[1..]);
    }
  }

  lemma InkSpace(c: char)
    requires IsSpace(c)
    ensures Ink([c]) == ""
  {
    assert [c][1..] == "";
  }

  lemma {:induction false} InkTrimEnd(s: string)
    ensures Ink(TrimEnd(s)) == Ink(s)
  {
    if s != "" && IsSpace(s[|s| - 1]) {
      var front := s[..|s| - 1];
      InkTrimEnd(front);
      InkAppend(front, [s[|s| - 1]]);
      InkSpace(s[|s| - 1]);
      assert s == front + [s[|s| - 1]];
    }
  }

  lemma {:induction false} InkSplitSpaces(s: string)
    ensures Ink(Concat(Wrap.SplitSpaces(s))) == Ink(s)
    decreases |s|
  {
    var n := Wrap.WordSpan(s);
    if n == |s| {
      InkOne(s);
    } else {
      Wrap.TrimStartShorter(s[n..]);
      var rest := TrimStart(s[n..]);
      InkSplitSpaces(rest);
      InkTrimStart(s[n..]);
      InkConcat([s[..n]], Wrap.SplitSpaces(rest));
      InkOne(s[..n]);
      InkAppend(s[..n], s[n..]);
      assert s == s[..n] + s[n..];
    }
  }

  lemma InkLonger(current: string, word: string)
    ensures Ink(Wrap.Longer(current, word)) == Ink(current) + Ink(word)
  {
    if current != "" {
      InkAppend(current + " ", word);
      InkAppend(current, " ");
      InkSpace(' ');
    }
  }

  lemma InkPushed(current: string)
    ensures Ink(Concat(Wrap.Pushed(current))) == Ink(current)
  {
    if current != "" {
      InkOne(current);
    }
  }

  lemma {:induction false} InkGreedy(words: seq<string>, current: string, maxWidth: int)
    ensures Ink(Concat(Wrap.Greedy(words, current, maxWidth))) == Ink(current) + Ink(Concat(words))
  {
    if words == [] {
      InkPushed(current);
    } else {
      var word, rest := words[0], words[1..];
      InkAppend(word, Concat(rest));
      Associate(Ink(current), Ink(word), Ink(Concat(rest)));
      if |Wrap.Longer(current, word)| <= maxWidth {
        InkGreedy(rest, Wrap.Longer(current, word), maxWidth);
        InkLonger(current, word);
      } else {
        InkGreedy(rest, word, maxWidth);
        InkConcat(Wrap.Pushed(current), Wrap.Greedy(rest, word, maxWidth));
        InkPushed(current);
      }
    }
  }

  lemma InkLinePieces(line: string, maxWidth: int)
    requires Terminates(line, maxWidth)
    ensures Ink(Concat(LinePieces(line, maxWidth))) == Ink(line)
  {
    if |line| <= maxWidth {
      InkOne(line);
    } else if ' ' !in line {
      if maxWidth >= 1 {
        ChunksAreTheText(line, maxWidth);
      }
    } else {
      InkGreedy(Wrap.SplitSpaces(line), "", maxWidth);
      InkSplitSpaces(line);
    }
  }

  lemma {:induction false} InkAllPieces(lines: seq<string>, maxWidth: int)
    requires AllTerminate(lines, maxWidth)
    ensures Ink(Concat(AllPieces(lines, maxWidth))) == Ink(Concat(lines))
  {
    if lines != [] {
      var front, last := lines[..|lines| - 1], lines[|lines| - 1];
      InkAllPieces(front, maxWidth);
      InkLinePieces(last, maxWidth);
      InkSnoc(front, last, lines);
      InkConcat(AllPieces(front, maxWidth), LinePieces(last, maxWidth));
    }
  }

  lemma {:induction false} InkSnoc(front: seq<string>, last: string, lines: seq<string>)
    requires lines == front + [last]
    ensures Ink(Concat(lines)) == Ink(Concat(front)) + Ink(last)
  {
    InkConcat(front, [last]);
    InkOne(last);
  }

  lemma {:induction false} InkJoin(parts: seq<string>)
    ensures Ink(Join(parts, "\n")) == Ink(Concat(parts))
  {
    if |parts| == 1 {
      InkOne(parts[0]);
      assert parts == [parts[0]];
    } else if |parts| > 1 {
      InkJoin(parts[1..]);
      InkAppend(parts[0] + "\n", Join(parts[1..], "\n"));
      InkAppend(parts[0], "\n");
      InkSpace('\n');
      InkAppend(parts[0], Concat(parts[1..]));
    }
  }

  /** Wrapping loses, adds and reorders no character but white space. */
  lemma WrappingKeepsInk(text: string, maxWidth: int)
    requires AllTerminate(Split(text, '\n'), maxWidth)
    ensures Ink(Concat(WrappedLines(text, maxWidth))) == Ink(text)
  {
    var lines := Split(text, '\n');
    InkAllPieces(lines, maxWidth);
    InkJoin(lines);
    JoinSplit(text, '\n');
    if AllPieces(lines, maxWidth) == [] {
      InkOne(Trim(text));
      InkTrimEnd(TrimStart(text));
      InkTrimStart(text);
    }
  }

  // ----- every line fits, or could not be broken

  predicate Solid(s: string) {
    forall i :: 0 <= i < |s| ==> !IsSpace(s[i])
  }

  predicate Fits(line: string, maxWidth: int) {
    |line| <= maxWidth || Solid(line)
  }

  predicate AllFit(lines: seq<string>, maxWidth: int) {
    forall i :: 0 <= i < |lines| ==> Fits(lines[i], maxWidth)
  }

  predicate AllSolid(words: seq<string>) {
    forall i :: 0 <= i < |words| ==> Solid(words[i])
  }

  lemma {:induction false} GreedyFits(words: seq<string>, current: string, maxWidth: int)
    requires AllSolid(words) && Fits(current, maxWidth)
    ensures AllFit(Wrap.Greedy(words, current, maxWidth), maxWidth)
  {
    if words != [] {
      if |Wrap.Longer(current, words[0])| <= maxWidth {
        GreedyFits(words[1..], Wrap.Longer(current, words[0]), maxWidth);
      } else {
        GreedyFits(words[1..], words[0], maxWidth);
      }
    }
  }

  lemma WordsAreSolid(p: seq<string>)
    requires Wrap.WordsInside(p)
    ensures AllSolid(p)
  {
    forall i | 0 <= i < |p| ensures Solid(p[i]) {
      assert Wrap.IsWord(p[i]) || p[i] == "";
    }
  }

  lemma PiecesAreSolid(line: string)
    ensures AllSolid(Wrap.SplitSpaces(line))
  {
    Wrap.PiecesAreWords(line);
    WordsAreSolid(Wrap.SplitSpaces(line));
  }

  lemma LinePiecesFit(line: string, maxWidth: int)
    requires Terminates(line, maxWidth)
    ensures AllFit(LinePieces(line, maxWidth), maxWidth)
  {
    if |line| > maxWidth {
      if ' ' !in line {
        if maxWidth >= 1 {
          ChunksAreTheText(line, maxWidth);
        }
      } else {
        PiecesAreSolid(line);
        GreedyFits(Wrap.SplitSpaces(line), "", maxWidth);
      }
    }
  }

  lemma {:induction false} AllPiecesFit(lines: seq<string>, maxWidth: int)
    requires AllTerminate(lines, maxWidth)
    ensures AllFit(AllPieces(lines, maxWidth), maxWidth)
  {
    if lines != [] {
      AllPiecesFit(lines[..|lines| - 1], maxWidth);
      LinePiecesFit(lines[|lines| - 1], maxWidth);
    }
  }

  /** No line of the result is too wide unless it is one unbroken word. */
  lemma WrappingFits(text: string, maxWidth: int)
    requires AllTerminate(Split(text, '\n'), maxWidth)
    ensures AllFit(WrappedLines(text, maxWidth), maxWidth)
  {
    var lines := Split(text, '\n');
    AllPiecesFit(lines, maxWidth);
    if AllPieces(lines, maxWidth) == [] {
      InkAllPieces(lines, maxWidth);
      InkJoin(lines);
      JoinSplit(text, '\n');
      NoInkIsBlank(text);
    }
  }

  lemma {:induction false} NoInkIsBlank(s: string)
    requires Ink(s) == ""
    ensures TrimStart(s) == "" && Trim(s) == ""
  {
    if s != "" {
      NoInkIsBlank(s[1..]);
    }
  }

  predicate Narrow(lines: seq<string>, maxWidth: int) {
    forall i :: 0 <= i < |lines| ==> |lines[i]| <= maxWidth
  }

  /** A text is left as it is, line for line, exactly when all its lines fit. */
  lemma {:induction false} FittingTextIsKept(text: string, maxWidth: int)
    requires maxWidth >= 1
    ensures WrappedLines(text, maxWidth) == Split(text, '\n') <==> Narrow(Split(text, '\n'), maxWidth)
  {
    var lines := Split(text, '\n');
    if Narrow(lines, maxWidth) {
      AllKept(lines, maxWidth);
    } else {
      var i := FirstWide(lines, maxWidth);
      WrappingFits(text, maxWidth);
      if WrappedLines(text, maxWidth) == lines {
        assert Fits(lines[i], maxWidth);
        WideIsChunked(lines, i, maxWidth);
      }
    }
  }

  lemma {:induction false} FirstWide(lines: seq<string>, maxWidth: int) returns (i: nat)
    requires !Narrow(lines, maxWidth)
    ensures i < |lines| && |lines[i]| > maxWidth && Narrow(lines[..i], maxWidth)
  {
    var n := |lines| - 1;
    if Narrow(lines[..n], maxWidth) {
      i := n;
    } else {
      i := FirstWide(lines[..n], maxWidth);
      assert lines[..n][..i] == lines[..i];
    }
  }

  /** The first line that does not fit is broken up if it is solid. */
  lemma WideIsChunked(lines: seq<string>, i: nat, maxWidth: int)
    requires maxWidth >= 1 && i < |lines| && |lines[i]| > maxWidth && Narrow(lines[..i], maxWidth) && Solid(lines[i])
    ensures |AllPieces(lines, maxWidth)| > i && |AllPieces(lines, maxWidth)[i]| == maxWidth
  {
    var line := lines[i];
    assert lines[..i + 1][..i] == lines[..i];
    AllKept(lines[..i], maxWidth);
    assert ' ' !in line;
    assert AllPieces(lines[..i + 1], maxWidth) == lines[..i] + Chunks(line, maxWidth);
    PiecesPrefix(lines, i + 1, maxWidth);
  }

  lemma {:induction false} PiecesPrefix(lines: seq<string>, k: nat, maxWidth: int)
    requires k <= |lines| && maxWidth >= 1
    ensures AllPieces(lines[..k], maxWidth) <= AllPieces(lines, maxWidth)
  {
    if k == |lines| {
      assert lines[..k] == lines;
    } else {
      PiecesPrefix(lines[..|lines| - 1], k, maxWidth);
      assert lines[..|lines| - 1][..k] == lines[..k];
    }
  }

  lemma {:induction false} AllKept(lines: seq<string>, maxWidth: int)
    requires maxWidth >= 1 && Narrow(lines, maxWidth)
    ensures AllPieces(lines, maxWidth) == lines
  {
    if lines != [] {
      AllKept(lines[..|lines| - 1], maxWidth);
    }
  }

  // ----- line by line

  /** What becomes of one line: one that fits stays; one without spaces is cut into pieces of
      full width; any other is wrapped by words and no word is cut. */
  lemma LineByCase(line: string, maxWidth: int)
    requires Terminates(line, maxWidth)
    ensures |line| <= maxWidth ==> LinePieces(line, maxWidth) == [line]
    ensures |line| > maxWidth && ' ' !in line && maxWidth >= 1 ==>
              var c := LinePieces(line, maxWidth);
              Concat(c) == line && |c| > 1 && 0 < |c[|c| - 1]| <= maxWidth &&
              forall i :: 0 <= i < |c| - 1 ==> |c[i]| == maxWidth
    ensures |line| > maxWidth && ' ' in line ==> LinePieces(line, maxWidth) == Wrap.Wrapped(line, maxWidth)
    ensures line == "" ==> LinePieces(line, maxWidth) == if maxWidth >= 0 then [""] else []
  {
    if |line| > maxWidth && ' ' !in line && maxWidth >= 1 {
      ChunksAreTheText(line, maxWidth);
      OnePiece(Chunks(line, maxWidth));
    }
  }

  lemma OnePiece(c: seq<string>)
    ensures |c| == 1 ==> Concat(c) == c[0]
  {
    if |c| == 1 {
      assert c[1..] == [] && c[0] + "" == c[0];
    }
  }

  /** The lines of a text come out one behind the other; where all of them give nothing, one
      empty line stands for the text. */
  lemma {:induction false} LinesInOrder(a: seq<string>, b: seq<string>, maxWidth: int)
    requires AllTerminate(a, maxWidth) && AllTerminate(b, maxWidth)
    ensures AllTerminate(a + b, maxWidth)
    ensures AllPieces(a + b, maxWidth) == AllPieces(a, maxWidth) + AllPieces(b, maxWidth)
  {
    if b == [] {
      assert a + b == a;
    } else {
      var n := |b| - 1;
      LinesInOrder(a, b[..n], maxWidth);
      OneMoreLine(b[..n], b[n], maxWidth);
      assert b[..n] + [b[n]] == b && a + b == (a + b[..n]) + [b[n]];
      OneMoreLine(a + b[..n], b[n], maxWidth);
      Associate(AllPieces(a, maxWidth), AllPieces(b[..n], maxWidth), LinePieces(b[n], maxWidth));
    }
  }

  lemma OneMoreLine(lines: seq<string>, line: string, maxWidth: int)
    requires AllTerminate(lines, maxWidth) && Terminates(line, maxWidth)
    ensures AllTerminate(lines + [line], maxWidth)
    ensures AllPieces(lines + [line], maxWidth) == AllPieces(lines, maxWidth) + LinePieces(line, maxWidth)
  {
    assert (lines + [line])[..|lines|] == lines;
  }

  lemma TextOfLines(text: string, maxWidth: int)
    requires AllTerminate(Split(text, '\n'), maxWidth)
    ensures var pieces := AllPieces(Split(text, '\n'), maxWidth);
            WrappedLines(text, maxWidth) == if pieces == [] then [""] else pieces
  {
    var lines := Split(text, '\n');
    if AllPieces(lines, maxWidth) == [] {
      InkAllPieces(lines, maxWidth);
      InkJoin(lines);
      JoinSplit(text, '\n');
      NoInkIsBlank(text);
    }
  }
}
