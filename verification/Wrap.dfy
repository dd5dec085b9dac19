/** Word wrapping of log text: the greedy algorithm and why no wrapping does better. */
module Wrap {
  import opened Text

  // ----- words

  /** Length of the word at the front. */
  function WordSpan(s: string): (n: nat)
    ensures n <= |s| && (n < |s| ==> IsSpace(s[n]))
    ensures forall i :: 0 <= i < n ==> !IsSpace(s[i])
  {
    if s != "" && !IsSpace(s[0]) then 1 + WordSpan(s[1..]) else 0
  }

  lemma {:induction false} TrimStartShorter(s: string)
    ensures |TrimStart(s)| <= |s| && (s != "" && IsSpace(s[0]) ==> |TrimStart(s)| < |s|)
  {
    if s != "" && IsSpace(s[0]) {
      TrimStartShorter(s[1..]);
    }
  }

  /** split(/\s+/): white space at either end leaves an empty piece there. */
  function SplitSpaces(s: string): (pieces: seq<string>)
    ensures |pieces| >= 1
    decreases |s|
  {
    var n := WordSpan(s);
    if n == |s| then [s]
    else
      TrimStartShorter(s[n..]);
      [s[..n]] + SplitSpaces(TrimStart(s[n..]))
  }

  predicate IsWord(w: string) {
    w != "" && forall i :: 0 <= i < |w| ==> !IsSpace(w[i])
  }

  predicate NoneEmpty(words: seq<string>) {
    forall i :: 0 <= i < |words| ==> words[i] != ""
  }

  function NonEmpty(pieces: seq<string>): seq<string> {
    if pieces == [] then []
    else if pieces[0] == "" then NonEmpty(pieces[1..])
    else [pieces[0]] + NonEmpty(pieces[1..])
  }

  /** The words of a text: its maximal runs of characters other than white space. */
  function Words(s: string): seq<string> {
    NonEmpty(SplitSpaces(s))
  }

  predicate WordsInside(p: seq<string>) {
    forall i :: 0 <= i < |p| ==> IsWord(p[i]) || (p[i] == "" && (i == 0 || i == |p| - 1))
  }

  /** Pieces are words, except that the first and the last may be empty. */
  lemma {:induction false} PiecesAreWords(s: string)
    ensures WordsInside(SplitSpaces(s))
    ensures s != "" && !IsSpace(s[0]) ==> SplitSpaces(s)[0] != ""
    decreases |s|
  {
    var n := WordSpan(s);
    if n < |s| {
      var t := TrimStart(s[n..]);
      TrimStartShorter(s[n..]);
      TrimStartFront(s[n..]);
      PiecesAreWords(t);
      if t == "" {
        assert SplitSpaces(t) == [""];
      }
    }
  }

  // ----- the greedy algorithm

  function Longer(current: string, word: string): string {
    if current == "" then word else current + " " + word
  }

  function Pushed(current: string): seq<string> {
    if current == "" then [] else [current]
  }

  /** The lines the loop still produces from a current line and the words to come. */
  function Greedy(words: seq<string>, current: string, maxWidth: int): seq<string> {
    if words == [] then Pushed(current)
    else if |Longer(current, words[0])| <= maxWidth then Greedy(words[1..], Longer(current, words[0]), maxWidth)
    else Pushed(current) + Greedy(words[1..], words[0], maxWidth)
  }

  function Wrapped(text: string, maxWidth: int): seq<string> {
    Greedy(SplitSpaces(text), "", maxWidth)
  }

  /** The line finished when `word` does not fit. */
  function Finished(current: string, word: string, maxWidth: int): seq<string> {
    if |Longer(current, word)| <= maxWidth then [] else Pushed(current)
  }

  function Next(current: string, word: string, maxWidth: int): string {
    if |Longer(current, word)| <= maxWidth then Longer(current, word) else word
  }

  lemma GreedyCons(word: string, words: seq<string>, current: string, maxWidth: int)
    ensures Greedy([word] + words, current, maxWidth) ==
            Finished(current, word, maxWidth) + Greedy(words, Next(current, word, maxWidth), maxWidth)
  {
    assert ([word] + words)[1..] == words;
  }

  lemma GreedyTurn(words: seq<string>, i: nat, lines: seq<string>, current: string, maxWidth: int)
    requires i < |words|
    ensures lines + Greedy(words[i..], current, maxWidth) ==
            (lines + Finished(current, words[i], maxWidth)) +
            Greedy(words[i + 1..], Next(current, words[i], maxWidth), maxWidth)
  {
    assert words[i..] == [words[i]] + words[i + 1..];
    GreedyCons(words[i], words[i + 1..], current, maxWidth);
    Associate(lines, Finished(current, words[i], maxWidth),
              Greedy(words[i + 1..], Next(current, words[i], maxWidth), maxWidth));
  }

  lemma PushOnto(lines: seq<string>, current: string)
    ensures lines + Pushed(current) == if |current| > 0 then lines + [current] else lines
  {
  }

  /** No words are left to read. */
  lemma GreedyDone(words: seq<string>, current: string, maxWidth: int)
    ensures Greedy(words[|words|..], current, maxWidth) == Pushed(current)
  {
  }

  method WrapText(text: string, maxWidth: int) returns (lines: seq<string>)
    ensures lines == Wrapped(text, maxWidth)
  {
    lines := WrapWords(SplitSpaces(text), maxWidth);
  }

  /** The loop over the words. */
  method WrapWords(words: seq<string>, maxWidth: int) returns (lines: seq<string>)
    ensures lines == Greedy(words, "", maxWidth)
  {
    lines := [];
    var currentLine := "";
    assert words[0..] == words;
    for i := 0 to |words|
      invariant lines + Greedy(words[i..], currentLine, maxWidth) == Greedy(words, "", maxWidth)
    {
      GreedyTurn(words, i, lines, currentLine, maxWidth);
      PushOnto(lines, currentLine);
      assert lines + [] == lines;
      var word := words[i];
      var testLine := if |currentLine| == 0 then word else currentLine + " " + word;
      if |testLine| <= maxWidth {
        currentLine := testLine;
      } else {
        if |currentLine| > 0 {
          lines := lines + [currentLine];
        }
        currentLine := word;
      }
    }
    GreedyDone(words, currentLine, maxWidth);
    PushOnto(lines, currentLine);
    if |currentLine| > 0 {
      lines := lines + [currentLine];
    }
  }

  // ----- wrappings as partitions

  function Width(words: seq<string>): nat {
    |Join(words, " ")|
  }

  /** A line may be too wide only when it is a single word. */
  predicate Admissible(group: seq<string>, maxWidth: int) {
    |group| == 1 || (|group| > 1 && Width(group) <= maxWidth)
  }

  function Flatten(groups: seq<seq<string>>): seq<string> {
    if groups == [] then [] else groups[0] + Flatten(groups[1..])
  }

  predicate IsWrapping(groups: seq<seq<string>>, words: seq<string>, maxWidth: int) {
    Flatten(groups) == words && forall g :: g in groups ==> Admissible(g, maxWidth)
  }

  predicate FirstFit(words: seq<string>, m: nat, maxWidth: int)
    requires m <= |words|
  {
    Width(words[..m]) <= maxWidth
  }

  /** How many words fit on a line that already holds the first `k`. */
  function Fill(words: seq<string>, k: nat, maxWidth: int): (m: nat)
    requires 1 <= k <= |words|
    ensures k <= m <= |words|
    ensures m == k || FirstFit(words, m, maxWidth)
    ensures m < |words| ==> !FirstFit(words, m + 1, maxWidth)
    decreases |words| - k
  {
    if k < |words| && FirstFit(words, k + 1, maxWidth) then Fill(words, k + 1, maxWidth) else k
  }

  function Groups(words: seq<string>, maxWidth: int): seq<seq<string>> {
    if words == [] then []
    else
      var m := Fill(words, 1, maxWidth);
      [words[..m]] + Groups(words[m..], maxWidth)
  }

  function JoinAll(groups: seq<seq<string>>): (lines: seq<string>)
    ensures |lines| == |groups|
    ensures forall i :: 0 <= i < |groups| ==> lines[i] == Join(groups[i], " ")
  {
    seq(|groups|, i requires 0 <= i < |groups| => Join(groups[i], " "))
  }

  lemma {:induction false} JoinSnoc(words: seq<string>, w: string)
    requires words != []
    ensures Join(words + [w], " ") == Join(words, " ") + " " + w
  {
    if |words| > 1 {
      JoinSnoc(words[1..], w);
      assert (words + [w])[1..] == words[1..] + [w];
      assert (words[0] + " ") + (Join(words[1..], " ") + " " + w) == (words[0] + " " + Join(words[1..], " ")) + " " + w;
    } else {
      assert (words + [w])[1..] == [w];
    }
  }

  lemma WidthStep(words: seq<string>, k: nat)
    requires 1 <= k < |words|
    ensures Join(words[..k + 1], " ") == Join(words[..k], " ") + " " + words[k]
    ensures Width(words[..k + 1]) == Width(words[..k]) + 1 + |words[k]|
  {
    assert words[..k + 1] == words[..k] + [words[k]];
    JoinSnoc(words[..k], words[k]);
  }

  lemma {:induction false} JoinNotEmpty(words: seq<string>)
    requires words != [] && words[0] != ""
    ensures Join(words, " ") != ""
  {
  }

  lemma JoinAllGroups(words: seq<string>, maxWidth: int)
    requires words != []
    ensures var m := Fill(words, 1, maxWidth);
            JoinAll(Groups(words, maxWidth)) == [Join(words[..m], " ")] + JoinAll(Groups(words[m..], maxWidth))
  {
  }

  /** The loop, started on a line of the first `k` words, writes the greedy groups. */
  lemma {:induction false} GreedyIsGroups(words: seq<string>, k: nat, maxWidth: int)
    requires 1 <= k <= |words| && NoneEmpty(words)
    ensures var m := Fill(words, k, maxWidth);
            Greedy(words[k..], Join(words[..k], " "), maxWidth) == LinesFrom(words, m, maxWidth)
    decreases |words|, |words| - k
  {
    FillStep(words, k, maxWidth);
    if k == |words| {
      GreedyEnd(words, maxWidth);
    } else if FirstFit(words, k + 1, maxWidth) {
      GreedyStep(words, k, maxWidth);
      GreedyIsGroups(words, k + 1, maxWidth);
    } else {
      GreedyFromFirst(words[k..], maxWidth);
      GreedyBreak(words, k, maxWidth);
    }
  }

  /** A line of the first `m` words and the greedy groups of the others. */
  function LinesFrom(words: seq<string>, m: nat, maxWidth: int): seq<string>
    requires m <= |words|
  {
    [Join(words[..m], " ")] + JoinAll(Groups(words[m..], maxWidth))
  }

  /** The next word does not fit, so it starts a line. */
  lemma GreedyBreak(words: seq<string>, k: nat, maxWidth: int)
    requires 1 <= k < |words| && NoneEmpty(words) && !FirstFit(words, k + 1, maxWidth)
    requires Greedy(words[k..][1..], words[k..][0], maxWidth) == JoinAll(Groups(words[k..], maxWidth))
    ensures Greedy(words[k..], Join(words[..k], " "), maxWidth) == LinesFrom(words, k, maxWidth)
  {
    GreedyStep(words, k, maxWidth);
  }

  lemma FillStep(words: seq<string>, k: nat, maxWidth: int)
    requires 1 <= k <= |words|
    ensures Fill(words, k, maxWidth) ==
            if k < |words| && FirstFit(words, k + 1, maxWidth) then Fill(words, k + 1, maxWidth) else k
  {
  }

  /** No words are left: the current line is the last one. */
  lemma GreedyEnd(words: seq<string>, maxWidth: int)
    requires words != [] && NoneEmpty(words)
    ensures Greedy(words[|words|..], Join(words[..|words|], " "), maxWidth) == LinesFrom(words, |words|, maxWidth)
  {
    JoinNotEmpty(words);
    assert words[..|words|] == words;
  }

  /** One iteration, on a line that holds the first `k` words. */
  lemma GreedyStep(words: seq<string>, k: nat, maxWidth: int)
    requires 1 <= k < |words| && NoneEmpty(words)
    ensures Greedy(words[k..], Join(words[..k], " "), maxWidth) ==
            if FirstFit(words, k + 1, maxWidth) then Greedy(words[k + 1..], Join(words[..k + 1], " "), maxWidth)
            else [Join(words[..k], " ")] + Greedy(words[k..][1..], words[k..][0], maxWidth)
  {
    JoinNotEmpty(words[..k]);
    WidthStep(words, k);
    DropTwice(words, k, 1);
    assert words[k..][0] == words[k];
  }

  lemma {:induction false} GreedyFromFirst(words: seq<string>, maxWidth: int)
    requires words != [] && NoneEmpty(words)
    ensures Greedy(words[1..], words[0], maxWidth) == JoinAll(Groups(words, maxWidth))
    decreases |words|, |words|
  {
    GreedyIsGroups(words, 1, maxWidth);
    assert words[..1] == [words[0]];
    JoinAllGroups(words, maxWidth);
  }

  lemma {:induction false} GroupsWrap(words: seq<string>, maxWidth: int)
    ensures IsWrapping(Groups(words, maxWidth), words, maxWidth)
  {
    if words != [] {
      var m := Fill(words, 1, maxWidth);
      GroupsWrap(words[m..], maxWidth);
      assert words[..m] + words[m..] == words;
      var g := Groups(words, maxWidth);
      assert g[1..] == Groups(words[m..], maxWidth);
    }
  }

  // ----- optimality

  /** Dropping the first word of a line makes it narrower. */
  lemma TailNarrower(words: seq<string>, m: nat)
    requires 2 <= m <= |words|
    ensures Width(words[1..][..m - 1]) < Width(words[..m])
  {
    assert words[..m][1..] == words[1..][..m - 1];
  }

  /** Lines only get wider with more words. */
  lemma {:induction false} WidthMonotone(words: seq<string>, j: nat, k: nat)
    requires 1 <= j <= k <= |words|
    ensures Width(words[..j]) <= Width(words[..k])
    decreases k - j
  {
    if j < k {
      WidthStep(words, j);
      WidthMonotone(words, j + 1, k);
    }
  }

  /** Greedy fills a line at least as far as any admissible line does. */
  lemma FillIsFurthest(words: seq<string>, k: nat, maxWidth: int)
    requires 1 <= k <= |words| && Admissible(words[..k], maxWidth)
    ensures k <= Fill(words, 1, maxWidth)
  {
    var m := Fill(words, 1, maxWidth);
    if m < k {
      WidthMonotone(words, m + 1, k);
    }
  }

  lemma DropTwice(words: seq<string>, j: nat, k: nat)
    requires j + k <= |words|
    ensures words[j..][k..] == words[j + k..]
  {
  }

  /** Starting later never takes more lines. */
  lemma {:induction false} LaterIsNoWorse(words: seq<string>, k: nat, maxWidth: int)
    requires k <= |words|
    ensures |Groups(words[k..], maxWidth)| <= |Groups(words, maxWidth)|
    decreases |words|, k
  {
    if k == 0 {
      assert words[0..] == words;
    } else {
      OneLater(words, maxWidth);
      LaterIsNoWorse(words[1..], k - 1, maxWidth);
      assert words[1..][k - 1..] == words[k..];
    }
  }

  lemma {:induction false} OneLater(words: seq<string>, maxWidth: int)
    requires words != []
    ensures |Groups(words[1..], maxWidth)| <= |Groups(words, maxWidth)|
    decreases |words|, 0
  {
    var m := Fill(words, 1, maxWidth);
    if m > 1 {
      var tail := words[1..];
      TailNarrower(words, m);
      FillIsFurthest(tail, m - 1, maxWidth);
      var n := Fill(tail, 1, maxWidth);
      GroupCount(words, maxWidth);
      GroupCount(tail, maxWidth);
      DropMore(words, m, n);
      LaterIsNoWorse(words[m..], n - (m - 1), maxWidth);
    }
  }

  lemma GroupCount(words: seq<string>, maxWidth: int)
    requires words != []
    ensures |Groups(words, maxWidth)| == 1 + |Groups(words[Fill(words, 1, maxWidth)..], maxWidth)|
  {
  }

  lemma DropMore(words: seq<string>, m: nat, n: nat)
    requires 1 <= m <= n + 1 <= |words|
    ensures words[1..][n..] == words[m..][n - (m - 1)..]
  {
  }

  /** No way of breaking the words into admissible lines uses fewer lines than greedy. */
  lemma {:induction false} GreedyIsOptimal(groups: seq<seq<string>>, words: seq<string>, maxWidth: int)
    requires IsWrapping(groups, words, maxWidth)
    ensures |Groups(words, maxWidth)| <= |groups|
  {
    if groups != [] {
      var k := |groups[0]|;
      assert groups[0] in groups;
      assert words[..k] == groups[0] && words[k..] == Flatten(groups[1..]);
      GreedyIsOptimal(groups[1..], words[k..], maxWidth);
      FillIsFurthest(words, k, maxWidth);
      var m := Fill(words, 1, maxWidth);
      LaterIsNoWorse(words[k..], m - k, maxWidth);
      assert words[k..][m - k..] == words[m..];
    }
  }

  // ----- white space at the ends of the text

  lemma {:induction false} NonEmptyOfWords(pieces: seq<string>)
    requires NoneEmpty(pieces)
    ensures NonEmpty(pieces) == pieces
  {
    if pieces != [] {
      NonEmptyOfWords(pieces[1..]);
      assert [pieces[0]] + pieces[1..] == pieces;
    }
  }

  lemma {:induction false} NonEmptyTrailing(words: seq<string>)
    requires NoneEmpty(words)
    ensures NonEmpty(words + [""]) == words
  {
    if words == [] {
      assert [""][1..] == [] && words + [""] == [""];
    } else {
      NonEmptyTrailing(words[1..]);
      assert (words + [""])[1..] == words[1..] + [""];
      assert [words[0]] + words[1..] == words;
    }
  }

  /** The last line may carry one trailing space. */
  predicate SameLines(lines: seq<string>, plain: seq<string>, maxWidth: int) {
    |lines| == |plain| &&
    forall i :: 0 <= i < |lines| ==>
      || lines[i] == plain[i]
      || (i == |lines| - 1 && lines[i] == plain[i] + " " && |lines[i]| <= maxWidth)
  }

  lemma PrefixSameLines(first: seq<string>, lines: seq<string>, plain: seq<string>, maxWidth: int)
    requires SameLines(lines, plain, maxWidth)
    ensures SameLines(first + lines, first + plain, maxWidth)
  {
  }

  lemma {:induction false} TrailingEmptyPiece(words: seq<string>, current: string, maxWidth: int)
    ensures SameLines(Greedy(words + [""], current, maxWidth), Greedy(words, current, maxWidth), maxWidth)
  {
    if words == [] {
      assert words + [""] == [""] + [];
      GreedyCons("", [], current, maxWidth);
      assert current + " " + "" == current + " ";
    } else {
      var next := Next(current, words[0], maxWidth);
      GreedyCons(words[0], words[1..], current, maxWidth);
      GreedyCons(words[0], words[1..] + [""], current, maxWidth);
      assert [words[0]] + words[1..] == words;
      assert [words[0]] + (words[1..] + [""]) == words + [""];
      TrailingEmptyPiece(words[1..], next, maxWidth);
      PrefixSameLines(Finished(current, words[0], maxWidth), Greedy(words[1..] + [""], next, maxWidth),
                      Greedy(words[1..], next, maxWidth), maxWidth);
    }
  }

  /** The first word of each line would not have fitted on the line before it. */
  predicate Full(groups: seq<seq<string>>, maxWidth: int) {
    forall i :: 0 < i < |groups| ==> groups[i] != [] && Width(groups[i - 1] + [groups[i][0]]) > maxWidth
  }

  /** The greedy groups are the one admissible partition whose lines are full. */
  lemma {:induction false} GreedyExactly(groups: seq<seq<string>>, words: seq<string>, maxWidth: int)
    ensures IsWrapping(groups, words, maxWidth) && Full(groups, maxWidth) <==> groups == Groups(words, maxWidth)
    decreases |words|
  {
    GroupsWrap(words, maxWidth);
    GroupsAreFull(words, maxWidth);
    if IsWrapping(groups, words, maxWidth) && Full(groups, maxWidth) {
      FullIsGreedy(groups, words, maxWidth);
    }
  }

  lemma {:induction false} GroupsAreFull(words: seq<string>, maxWidth: int)
    ensures Full(Groups(words, maxWidth), maxWidth)
  {
    if words != [] {
      var m := Fill(words, 1, maxWidth);
      var rest := Groups(words[m..], maxWidth);
      GroupsAreFull(words[m..], maxWidth);
      if m < |words| {
        assert words[..m] + [words[m]] == words[..m + 1];
        assert rest[0][0] == words[m];
      }
    }
  }

  lemma {:induction false} FullIsGreedy(groups: seq<seq<string>>, words: seq<string>, maxWidth: int)
    requires IsWrapping(groups, words, maxWidth) && Full(groups, maxWidth)
    ensures groups == Groups(words, maxWidth)
  {
    if groups != [] {
      var first, rest := groups[0], groups[1..];
      assert first in groups && words == first + Flatten(rest);
      FirstIsFilled(groups, words, maxWidth);
      assert words[..|first|] == first && words[|first|..] == Flatten(rest);
      FullIsGreedy(rest, words[|first|..], maxWidth);
      assert groups == [first] + rest;
    }
  }

  lemma FirstIsFilled(groups: seq<seq<string>>, words: seq<string>, maxWidth: int)
    requires groups != [] && IsWrapping(groups, words, maxWidth) && Full(groups, maxWidth)
    ensures words != [] && Fill(words, 1, maxWidth) == |groups[0]|
  {
    var first, rest := groups[0], groups[1..];
    var k := |first|;
    assert first in groups && words == first + Flatten(rest);
    assert words[..k] == first;
    var m := Fill(words, 1, maxWidth);
    if m < k {
      WidthMonotone(words, m + 1, k);
    } else if m > k {
      assert rest != [];
      assert groups[1] == rest[0] && Flatten(rest) == rest[0] + Flatten(rest[1..]);
      assert words[k] == groups[1][0];
      assert words[..k + 1] == first + [groups[1][0]];
      WidthMonotone(words, k + 1, m);
    }
  }

  /** The main result: the wrapped lines are the greedy groups of the words, joined by
      single spaces, in order and complete; each is admissible; and no admissible wrapping
      of the same words has fewer lines. */
  lemma WrappingIsOptimal(text: string, maxWidth: int, groups: seq<seq<string>>)
    requires IsWrapping(groups, Words(text), maxWidth)
    ensures var best := Groups(Words(text), maxWidth);
            IsWrapping(best, Words(text), maxWidth) &&
            SameLines(Wrapped(text, maxWidth), JoinAll(best), maxWidth) &&
            |Wrapped(text, maxWidth)| == |best| <= |groups|
  {
    WrappedIsGroups(text, maxWidth);
    GroupsWrap(Words(text), maxWidth);
    GreedyIsOptimal(groups, Words(text), maxWidth);
  }

  lemma WrappedIsGroups(text: string, maxWidth: int)
    ensures SameLines(Wrapped(text, maxWidth), JoinAll(Groups(Words(text), maxWidth)), maxWidth)
  {
    var pieces := SplitSpaces(text);
    var lo := if pieces[0] == "" then 1 else 0;
    LeadingEmptyPiece(pieces, lo, maxWidth);
    BodyIsGroups(text, lo, maxWidth);
  }

  lemma BodyIsGroups(text: string, lo: nat, maxWidth: int)
    requires lo <= 1 && (lo == 1 || SplitSpaces(text)[0] != "")
    ensures var body := SplitSpaces(text)[lo..];
            SameLines(Greedy(body, "", maxWidth), JoinAll(Groups(NonEmpty(body), maxWidth)), maxWidth)
  {
    var pieces := SplitSpaces(text);
    var body, n := pieces[lo..], |pieces|;
    if lo < n && pieces[n - 1] == "" {
      MiddleNonEmpty(text, lo, n - 1);
      assert body == pieces[lo..n - 1] + [""];
      WrappedWithTrailing(pieces[lo..n - 1], maxWidth);
    } else {
      MiddleNonEmpty(text, lo, n);
      assert pieces[lo..n] == body;
      NonEmptyOfWords(body);
      GreedyFromStart(body, maxWidth);
    }
  }

  lemma LeadingEmptyPiece(pieces: seq<string>, lo: nat, maxWidth: int)
    requires pieces != [] && lo == if pieces[0] == "" then 1 else 0
    ensures Greedy(pieces, "", maxWidth) == Greedy(pieces[lo..], "", maxWidth)
    ensures NonEmpty(pieces) == NonEmpty(pieces[lo..])
  {
    if lo == 0 {
      assert pieces[0..] == pieces;
    } else {
      assert Pushed("") + Greedy(pieces[1..], "", maxWidth) == Greedy(pieces[1..], "", maxWidth);
    }
  }

  lemma {:induction false} WrappedWithTrailing(words: seq<string>, maxWidth: int)
    requires NoneEmpty(words)
    ensures NonEmpty(words + [""]) == words
    ensures SameLines(Greedy(words + [""], "", maxWidth), JoinAll(Groups(words, maxWidth)), maxWidth)
  {
    NonEmptyTrailing(words);
    TrailingEmptyPiece(words, "", maxWidth);
    GreedyFromStart(words, maxWidth);
  }

  lemma MiddleNonEmpty(text: string, lo: nat, hi: nat)
    requires var p := SplitSpaces(text);
             lo <= hi <= |p| && (lo >= 1 || p[0] != "") && (lo == hi || hi < |p| || p[hi - 1] != "")
    ensures NoneEmpty(SplitSpaces(text)[lo..hi])
  {
    PiecesAreWords(text);
    var p := SplitSpaces(text);
    forall i | lo <= i < hi ensures p[i] != "" {
      assert i == 0 || i == |p| - 1 || IsWord(p[i]);
    }
  }

  lemma GreedyFromStart(words: seq<string>, maxWidth: int)
    requires NoneEmpty(words)
    ensures Greedy(words, "", maxWidth) == JoinAll(Groups(words, maxWidth))
  {
    if words != [] {
      GreedyFromFirst(words, maxWidth);
      assert Pushed("") + Greedy(words[1..], words[0], maxWidth) == Greedy(words[1..], words[0], maxWidth);
    }
  }
}
