/** Dotenv values by the way they are written: each kind of quote, none, with and without a comment. */
module DotenvValues {
  import opened Text
  import opened Dotenv

  predicate Free(v: string, c: char) {
    forall i :: 0 <= i < |v| ==> v[i] != c
  }

  predicate QuoteMark(q: char) {
    q in {'"', '\'', '`'}
  }

  function Wrapped(q: char, v: string): string {
    [q] + (v + [q])
  }

  /** Two backslashes and an n. */
  const PATTERN: string := ['\\', '\\', 'n']

  /** The pattern starts nowhere in the text. */
  predicate NoPattern(v: string) {
    forall i :: 0 <= i && i + 2 < |v| ==> !(v[i] == '\\' && v[i + 1] == '\\' && v[i + 2] == 'n')
  }

  // ----- the scan inside quotes

  lemma {:induction false} InsideQuotes(q: char, v: string, rest: string, i: nat)
    requires QuoteMark(q) && Free(v, q) && 1 <= i <= |v| + 1
    ensures Comment([q] + (v + rest), i, Some(q)) == Comment([q] + (v + rest), |v| + 1, Some(q))
    decreases |v| + 1 - i
  {
    if i <= |v| {
      assert ([q] + (v + rest))[i] == v[i - 1];
      InsideQuotes(q, v, rest, i + 1);
    }
  }

  /** A value in quotes of any kind, free of that quote, loses them; in double quotes the
      patterns become newlines, in the others nothing changes. */
  lemma WrappedValue(q: char, v: string)
    requires QuoteMark(q) && Free(v, q)
    ensures ParseValue(Wrapped(q, v)) == if q == '"' then ExpandNewlines(v) else v
  {
    var s := Wrapped(q, v);
    InsideQuotes(q, v, [q], 1);
    assert s[|v| + 1] == q && s[0] == q;
    assert Comment(s, |v| + 2, None) == None && Comment(s, |v| + 2, Some(q)) == None;
    assert s[1..|s| - 1] == v;
  }

  /** An inline comment behind it goes, unless the value ends in a backslash. */
  lemma WrappedWithComment(q: char, v: string, c: string)
    requires QuoteMark(q) && Free(v, q) && !EndsInBackslash(v)
    ensures ParseValue(Wrapped(q, v) + (" #" + c)) == ParseValue(Wrapped(q, v))
  {
    var tail := [q] + (" #" + c);
    var s := Wrapped(q, v) + (" #" + c);
    Associate(v, [q], " #" + c);
    Associate([q], v + [q], " #" + c);
    assert s == [q] + (v + tail);
    InsideQuotes(q, v, tail, 1);
    var n := |v| + 1;
    assert s[n] == q && s[n + 1] == ' ' && s[n + 2] == '#';
    assert s[n - 1] == if v == "" then q else v[|v| - 1];
    CommentFound(s, n + 1);
    assert Comment(s, 0, None) == Some(n + 1) && s[..n + 1] == Wrapped(q, v);
    WrappedValue(q, v);
    assert Wrapped(q, v)[1..|v| + 1] == v;
  }

  // ----- the newline pattern

  lemma ExpandStep(s: string)
    ensures s != "" && !(|s| >= 3 && s[0] == '\\' && s[1] == '\\' && s[2] == 'n') ==>
              ExpandNewlines(s) == [s[0]] + ExpandNewlines(s[1..])
  {
  }

  /** Text without the pattern stays, whatever pattern or end follows it. */
  lemma {:induction false} ExpandFront(v: string, rest: string)
    requires NoPattern(v) && (rest == "" || StartsWith(rest, PATTERN))
    ensures ExpandNewlines(v + rest) == v + ExpandNewlines(rest)
  {
    if v == "" {
      assert v + rest == rest;
    } else {
      var s := v + rest;
      assert s[1..] == v[1..] + rest;
      ExpandFront(v[1..], rest);
      assert rest != "" ==> rest[0] == '\\' && rest[1] == '\\' && rest[2] == 'n';
      Associate([v[0]], v[1..], ExpandNewlines(rest));
      assert v == [v[0]] + v[1..];
    }
  }

  /** Exactly the patterns become newlines. */
  lemma {:induction false} PatternsExpand(pieces: seq<string>)
    requires pieces != [] && forall i :: 0 <= i < |pieces| ==> NoPattern(pieces[i])
    ensures ExpandNewlines(Join(pieces, PATTERN)) == Join(pieces, "\n")
  {
    var first := pieces[0];
    if |pieces| == 1 {
      ExpandFront(first, "");
      assert first + "" == first;
    } else {
      var inner := Join(pieces[1..], PATTERN);
      PatternsExpand(pieces[1..]);
      assert (PATTERN + inner)[..3] == PATTERN && (PATTERN + inner)[3..] == inner;
      ExpandFront(first, PATTERN + inner);
      Associate(first, PATTERN, inner);
      Associate(first, "\n", Join(pieces[1..], "\n"));
    }
  }

  /** A line in double quotes: the value written, with newlines for the patterns. */
  lemma DoubleQuotedLine(key: string, pieces: seq<string>)
    requires GoodKey(key) && pieces != []
    requires forall i :: 0 <= i < |pieces| ==> NoPattern(pieces[i]) && Free(pieces[i], '"')
    ensures ParseLine(key + ("=" + Wrapped('"', Join(pieces, PATTERN)))) == Some(Pair(key, Join(pieces, "\n")))
  {
    var v := Join(pieces, PATTERN);
    JoinFree(pieces, '"');
    WrappedValue('"', v);
    PatternsExpand(pieces);
    KeyedLineParses(key, Wrapped('"', v));
  }

  lemma {:induction false} JoinFree(pieces: seq<string>, c: char)
    requires c != '\\' && c != 'n' && forall i :: 0 <= i < |pieces| ==> Free(pieces[i], c)
    ensures Free(Join(pieces, PATTERN), c)
  {
    if |pieces| > 1 {
      JoinFree(pieces[1..], c);
    }
  }

  /** Without the pattern a double-quoted value is read as it stands; in the other quotes always. */
  lemma QuotedLine(key: string, q: char, v: string, c: string)
    requires GoodKey(key) && QuoteMark(q) && Free(v, q) && (q == '"' ==> NoPattern(v))
    ensures ParseLine(key + ("=" + Wrapped(q, v))) == Some(Pair(key, v))
    ensures !EndsInBackslash(v) ==> ParseLine(key + ("=" + (Wrapped(q, v) + (" #" + c)))) == Some(Pair(key, v))
  {
    WrappedValue(q, v);
    if q == '"' {
      ExpandFront(v, "");
      assert v + "" == v;
    }
    KeyedLineParses(key, Wrapped(q, v));
    if !EndsInBackslash(v) {
      WrappedWithComment(q, v, c);
      KeyedLineParses(key, Wrapped(q, v) + (" #" + c));
    }
  }

  // ----- values without quotes

  predicate NoQuotes(v: string) {
    forall i :: 0 <= i < |v| ==> v[i] !in {'"', '\'', '`'}
  }

  /** No '#' that would begin a comment. */
  predicate NoCommentSign(v: string) {
    forall i :: 0 <= i < |v| && v[i] == '#' ==> i > 0 && v[i - 1] != ' '
  }

  lemma {:induction false} PlainScan(v: string, rest: string, i: nat)
    requires NoQuotes(v) && NoCommentSign(v) && i <= |v|
    ensures Comment(v + rest, i, None) == Comment(v + rest, |v|, None)
    decreases |v| - i
  {
    if i < |v| {
      assert (v + rest)[i] == v[i] && (i > 0 ==> (v + rest)[i - 1] == v[i - 1]);
      PlainScan(v, rest, i + 1);
    }
  }

  lemma PlainUnquote(v: string)
    requires NoQuotes(v)
    ensures Unquote(v) == Trim(v)
  {
  }

  /** A value without quotes is trimmed, and a comment behind it goes. */
  lemma PlainLine(key: string, v: string, c: string)
    requires GoodKey(key) && NoQuotes(v) && NoCommentSign(v)
    ensures ParseLine(key + ("=" + v)) == Some(Pair(key, Trim(v)))
    ensures ParseLine(key + ("=" + (v + (" #" + c)))) == Some(Pair(key, Trim(v)))
    ensures ParseLine(key + ("=" + ("#" + c))) == Some(Pair(key, ""))
  {
    PlainValue(v);
    KeyedLineParses(key, v);
    PlainWithComment(v, c);
    KeyedLineParses(key, v + (" #" + c));
    CommentOnly(c);
    KeyedLineParses(key, "#" + c);
  }

  lemma PlainValue(v: string)
    requires NoQuotes(v) && NoCommentSign(v)
    ensures ParseValue(v) == Trim(v)
  {
    PlainUnquote(v);
    PlainScan(v, "", 0);
    assert v + "" == v;
  }

  lemma PlainWithComment(v: string, c: string)
    requires NoQuotes(v) && NoCommentSign(v)
    ensures ParseValue(v + (" #" + c)) == Trim(v)
  {
    var s := v + (" #" + c);
    PlainUnquote(v);
    PlainScan(v, " #" + c, 0);
    assert s[|v|] == ' ' && s[|v| + 1] == '#';
    CommentFound(s, |v|);
    assert s[..|v|] == v;
  }

  lemma CommentOnly(c: string)
    ensures ParseValue("#" + c) == ""
  {
    assert Comment("#" + c, 0, None) == Some(0) && ("#" + c)[..0] == "";
  }

  /** A lone quote is no pair of quotes: it is the value. */
  lemma LoneQuote(key: string, q: char)
    requires GoodKey(key) && QuoteMark(q)
    ensures ParseLine(key + ("=" + [q])) == Some(Pair(key, [q]))
  {
    var s := [q];
    assert Comment(s, 1, Some(q)) == None && Comment(s, 0, None) == None;
    assert s[1..] == "" && ExpandNewlines("") == "" && [q] + "" == [q];
    ExpandStep(s);
    KeyedLineParses(key, s);
  }

  /** A '=' in a quoted key does not end it; the quotes belong to the key. */
  lemma QuotedKey(q: char, k: string, value: string)
    requires QuoteMark(q) && Free(k, q) && !EndsInBackslash(k)
    ensures ParseLine(Wrapped(q, k) + ("=" + value)) == Some(Pair(Wrapped(q, k), ParseValue(value)))
  {
    var key := Wrapped(q, k);
    var line := key + ("=" + value);
    QuotedDelimiter(q, k, value);
    assert line[..|key|] == key && line[|key| + 1..] == value;
    TrimTight(key);
    QuoteNotSkipped(q, line);
  }

  lemma QuotedDelimiter(q: char, k: string, value: string)
    requires QuoteMark(q) && Free(k, q) && !EndsInBackslash(k)
    ensures Delimiter(Wrapped(q, k) + ("=" + value), 0, None) == Some(|k| + 2)
  {
    var rest := [q] + ("=" + value);
    var line := [q] + (k + rest);
    assert Wrapped(q, k) + ("=" + value) == line;
    KeyScan(q, k, rest, 1);
    var n := |k| + 1;
    assert line[n] == q && line[n + 1] == '=';
    assert line[n - 1] == if k == "" then q else k[|k| - 1];
    assert Delimiter(line, n, Some(q)) == Delimiter(line, n + 1, None) == Some(n + 1);
  }

  lemma QuoteNotSkipped(q: char, line: string)
    requires QuoteMark(q) && line != "" && line[0] == q
    ensures !Skipped(line)
  {
    assert TrimStart(line) == line;
    TrimEndKeepsFront(line);
    assert Trim(line)[..1] == [q];
  }

  lemma {:induction false} KeyScan(q: char, k: string, rest: string, i: nat)
    requires QuoteMark(q) && Free(k, q) && 1 <= i <= |k| + 1
    ensures Delimiter([q] + (k + rest), i, Some(q)) == Delimiter([q] + (k + rest), |k| + 1, Some(q))
    decreases |k| + 1 - i
  {
    if i <= |k| {
      assert ([q] + (k + rest))[i] == k[i - 1];
      KeyScan(q, k, rest, i + 1);
    }
  }

  // ----- lines and arguments without a value

  lemma {:induction false} NoDelimiter(line: string, i: nat, quote: Option<char>)
    requires i <= |line| && Free(line, '=')
    ensures Delimiter(line, i, quote) == None
    decreases |line| - i
  {
    if i < |line| {
      NoDelimiter(line, i + 1, quote);
      NoDelimiter(line, i + 1, Toggle(quote, line[i]));
    }
  }

  lemma {:induction false} SignFirst(before: string, rest: string, i: nat)
    requires NoQuotes(before) && Free(before, '=') && Free(before, '#') && i <= |before|
    ensures Delimiter(before + ("#" + rest), i, None) == None
    decreases |before| - i
  {
    if i < |before| {
      assert (before + ("#" + rest))[i] == before[i];
      SignFirst(before, rest, i + 1);
    } else {
      assert (before + ("#" + rest))[i] == '#';
    }
  }

  /** A line sets nothing when it has no '=', when a '#' comes first, or when nothing but
      white space stands in front of the '='. */
  lemma NothingSet(line: string, before: string, rest: string, spaces: string)
    requires NoQuotes(before) && Free(before, '=') && Free(before, '#')
    requires forall i :: 0 <= i < |spaces| ==> IsSpace(spaces[i])
    ensures Free(line, '=') ==> ParseLine(line) == None
    ensures ParseLine(before + ("#" + rest)) == None
    ensures ParseLine(spaces + ("=" + rest)) == None
  {
    if Free(line, '=') {
      NoDelimiter(line, 0, None);
    }
    SignFirst(before, rest, 0);
    SpacesThenEq(spaces, rest, 0);
    AllBlank(spaces);
    assert (spaces + ("=" + rest))[..|spaces|] == spaces;
  }

  lemma {:induction false} SpacesThenEq(spaces: string, rest: string, i: nat)
    requires i <= |spaces| && forall j :: 0 <= j < |spaces| ==> IsSpace(spaces[j])
    ensures Delimiter(spaces + ("=" + rest), i, None) == Some(|spaces|)
    decreases |spaces| - i
  {
    var line := spaces + ("=" + rest);
    if i < |spaces| {
      assert line[i] == spaces[i];
      SpacesThenEq(spaces, rest, i + 1);
    } else {
      assert line[i] == '=';
    }
  }

  lemma {:induction false} AllBlank(spaces: string)
    requires forall j :: 0 <= j < |spaces| ==> IsSpace(spaces[j])
    ensures Trim(spaces) == ""
  {
    if spaces != "" {
      AllBlank(spaces[1..]);
    }
  }

  /** A direct argument sets its key to all that stands behind the first '='; without a key
      or without '=' it sets nothing. */
  lemma ArgumentParses(k: string, v: string)
    requires Free(k, '=')
    ensures ParseArgument(k + ("=" + v)) == if k == "" then None else Some(Pair(k, v))
    ensures ParseArgument(k) == None
  {
    var parts := Split(v, '=');
    assert '=' !in k;
    assert k + ("=" + v) == k + ['='] + v;
    SplitFirstThen(k, v, '=');
    assert ([k] + parts)[1..] == parts;
    JoinSplit(v, '=');
    SplitFirst(k, '=');
    assert "=" == ['='];
  }

  /** The pairs that are set, in order. */
  function SetPairs(read: seq<Option<Pair>>): seq<Pair> {
    if read == [] then []
    else
      SetPairs(read[..|read| - 1]) +
      match read[|read| - 1]
      case None => []
      case Some(p) => [p]
  }

  lemma PutLast(m: Env, read: seq<Option<Pair>>)
    requires read != []
    ensures var before, last := PutAll(m, SetPairs(read[..|read| - 1])), read[|read| - 1];
            PutAll(m, SetPairs(read)) == match last case None => before case Some(p) => Put(before, p)
  {
    var front, last := SetPairs(read[..|read| - 1]), read[|read| - 1];
    if last.Some? {
      assert (front + [last.value])[..|front|] == front;
    } else {
      assert front + [] == front;
    }
  }

  lemma {:induction false} ArgumentsPut(m: Env, envs: seq<string>, read: seq<Option<Pair>>)
    requires |read| == |envs| && forall i :: 0 <= i < |envs| ==> read[i] == ParseArgument(envs[i])
    ensures ParseArguments(m, envs) == PutAll(m, SetPairs(read))
  {
    if envs != [] {
      var n := |envs| - 1;
      ArgumentsPut(m, envs[..n], read[..n]);
      PutLast(m, read);
    }
  }

  lemma {:induction false} LinesPut(m: Env, lines: seq<string>, read: seq<Option<Pair>>)
    requires |read| == |lines| && forall i :: 0 <= i < |lines| ==> read[i] == ParseLine(lines[i])
    ensures ParseLines(m, lines) == PutAll(m, SetPairs(read))
  {
    if lines != [] {
      var n := |lines| - 1;
      LinesPut(m, lines[..n], read[..n]);
      assert read[n] == ParseLine(lines[n]);
      PutLast(m, read);
    }
  }

  /** The result holds what the arguments set and then, over it, what the lines of the file
      set, each in order. */
  lemma ParsedInOrder(envs: seq<string>, lines: seq<string>, arguments: seq<Option<Pair>>, read: seq<Option<Pair>>)
    requires |arguments| == |envs| && forall i :: 0 <= i < |envs| ==> arguments[i] == ParseArgument(envs[i])
    requires |read| == |lines| && forall i :: 0 <= i < |lines| ==> read[i] == ParseLine(lines[i])
    requires lines != [] && forall l :: l in lines ==> '\n' !in l
    ensures Parsed(envs, None) == PutAll(map[], SetPairs(arguments))
    ensures Parsed(envs, Some(Join(lines, "\n"))) == PutAll(PutAll(map[], SetPairs(arguments)), SetPairs(read))
  {
    ArgumentsPut(map[], envs, arguments);
    assert "\n" == ['\n'];
    SplitJoin(lines, '\n');
    LinesPut(PutAll(map[], SetPairs(arguments)), lines, read);
  }
}
