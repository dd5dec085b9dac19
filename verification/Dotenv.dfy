/** The dotenv scanner: KEY=VALUE lines with quotes, escapes and comments. */
module Dotenv {
  import opened Text

  type Env = map<string, string>

  datatype Pair = Pair(key: string, value: string)

  predicate IsQuote(c: char) {
    c == '"' || c == '\'' || c == '`'
  }

  /** A quote character that is not escaped by a backslash in front of it. */
  predicate OpenQuoteAt(s: string, i: nat)
    requires i < |s|
  {
    IsQuote(s[i]) && (i == 0 || s[i - 1] != '\\')
  }

  /** The quote the scan is inside of after seeing an unescaped quote `c`. */
  function Toggle(quote: Option<char>, c: char): Option<char> {
    if quote == Some(c) then None else if quote == None then Some(c) else quote
  }

  /** The first '=' outside quotes, unless a '#' outside quotes comes first. */
  function Delimiter(line: string, i: nat, quote: Option<char>): (d: Option<nat>)
    requires i <= |line|
    ensures d.Some? ==> i <= d.value < |line| && line[d.value] == '='
    decreases |line| - i
  {
    if i == |line| then None
    else if OpenQuoteAt(line, i) then Delimiter(line, i + 1, Toggle(quote, line[i]))
    else if line[i] == '=' && quote == None then Some(i)
    else if line[i] == '#' && quote == None then None
    else Delimiter(line, i + 1, quote)
  }

  /** Where an inline comment starts: at a '#' outside quotes that is first or follows a space. */
  function Comment(value: string, i: nat, quote: Option<char>): (c: Option<nat>)
    requires i <= |value|
    ensures c.Some? ==> c.value <= |value|
    decreases |value| - i
  {
    if i == |value| then None
    else if OpenQuoteAt(value, i) then Comment(value, i + 1, Toggle(quote, value[i]))
    else if value[i] == '#' && quote == None && i > 0 && value[i - 1] == ' ' then Some(i - 1)
    else if value[i] == '#' && quote == None && i == 0 then Some(0)
    else Comment(value, i + 1, quote)
  }

  /** The pattern of two backslashes and an n becomes a newline. */
  function ExpandNewlines(s: string): string {
    if |s| >= 3 && s[0] == '\\' && s[1] == '\\' && s[2] == 'n' then "\n" + ExpandNewlines(s[3..])
    else if s == "" then ""
    else [s[0]] + ExpandNewlines(s[1..])
  }

  /** A value in matching quotes loses them; any other is trimmed. The range of a lone
      quote is reversed, and substring swaps reversed bounds, so the quote stays. */
  function Unquote(value: string): string {
    if value != "" && IsQuote(value[0]) && value[0] == value[|value| - 1] then
      var inner := if |value| == 1 then value else value[1..|value| - 1];
      if value[0] == '"' then ExpandNewlines(inner) else inner
    else Trim(value)
  }

  function ParseValue(value: string): string {
    match Comment(value, 0, None)
    case None => Unquote(value)
    case Some(c) => Unquote(value[..c])
  }

  predicate Skipped(line: string) {
    Blank(line) || StartsWith(Trim(line), "#")
  }

  function ParseLine(line: string): Option<Pair> {
    if Skipped(line) then None
    else
      match Delimiter(line, 0, None)
      case None => None
      case Some(d) =>
        var key := Trim(line[..d]);
        if key == "" then None else Some(Pair(key, ParseValue(line[d + 1..])))
  }

  /** Assigning a string to "__proto__" of a plain object has no effect. */
  function Put(m: Env, p: Pair): Env {
    if p.key == "__proto__" then m else m[p.key := p.value]
  }

  function PutAll(m: Env, pairs: seq<Pair>): Env {
    if pairs == [] then m else Put(PutAll(m, pairs[..|pairs| - 1]), pairs[|pairs| - 1])
  }

  function ParseLines(m: Env, lines: seq<string>): Env {
    if lines == [] then m
    else
      var before := ParseLines(m, lines[..|lines| - 1]);
      match ParseLine(lines[|lines| - 1])
      case None => before
      case Some(p) => Put(before, p)
  }

  /** One direct KEY=VALUE argument: the key ends at the first '='. */
  function ParseArgument(env: string): Option<Pair> {
    var parts := Split(env, '=');
    if |parts| == 1 || parts[0] == "" then None else Some(Pair(parts[0], Join(parts[1..], "=")))
  }

  function ParseArguments(m: Env, envs: seq<string>): Env {
    if envs == [] then m
    else
      var before := ParseArguments(m, envs[..|envs| - 1]);
      match ParseArgument(envs[|envs| - 1])
      case None => before
      case Some(p) => Put(before, p)
  }

  function Parsed(envs: seq<string>, file: Option<string>): Env {
    var m := ParseArguments(map[], envs);
    match file
    case None => m
    case Some(content) => ParseLines(m, Split(content, '\n'))
  }

  // ----- the loops

  method FindDelimiter(line: string) returns (delimiterIndex: int)
    ensures delimiterIndex == match Delimiter(line, 0, None) case None => -1 case Some(d) => d
  {
    delimiterIndex := -1;
    var inQuotes, quoteChar := false, ' ';
    for i := 0 to |line|
      invariant delimiterIndex == -1
      invariant Delimiter(line, 0, None) == Delimiter(line, i, if inQuotes then Some(quoteChar) else None)
    {
      if OpenQuoteAt(line, i) {
        if inQuotes && line[i] == quoteChar {
          inQuotes := false;
        } else if !inQuotes {
          inQuotes := true;
          quoteChar := line[i];
        }
      } else if line[i] == '=' && !inQuotes {
        delimiterIndex := i;
        return;
      } else if line[i] == '#' && !inQuotes {
        return;
      }
    }
  }

  method FindComment(value: string) returns (commentStartIndex: int)
    ensures commentStartIndex == match Comment(value, 0, None) case None => -1 case Some(c) => c
  {
    commentStartIndex := -1;
    var valueInQuotes, valueQuoteChar := false, ' ';
    for i := 0 to |value|
      invariant commentStartIndex == -1
      invariant Comment(value, 0, None) == Comment(value, i, if valueInQuotes then Some(valueQuoteChar) else None)
    {
      if OpenQuoteAt(value, i) {
        if valueInQuotes && value[i] == valueQuoteChar {
          valueInQuotes := false;
        } else if !valueInQuotes {
          valueInQuotes := true;
          valueQuoteChar := value[i];
        }
      } else if value[i] == '#' && !valueInQuotes && i > 0 && value[i - 1] == ' ' {
        commentStartIndex := i - 1;
        return;
      } else if value[i] == '#' && !valueInQuotes && i == 0 {
        commentStartIndex := i;
        return;
      }
    }
  }

  /** The body of the loop over the lines of the file. */
  method ScanLine(line: string) returns (pair: Option<Pair>)
    ensures pair == ParseLine(line)
  {
    if Skipped(line) {
      return None;
    }
    var delimiterIndex := FindDelimiter(line);
    if delimiterIndex == -1 {
      return None;
    }
    var key := Trim(line[..delimiterIndex]);
    var value := line[delimiterIndex + 1..];
    var commentStartIndex := FindComment(value);
    if commentStartIndex != -1 {
      value := value[..commentStartIndex];
    }
    if key == "" {
      return None;
    }
    return Some(Pair(key, Unquote(value)));
  }

  method ParseEnv(envs: seq<string>, file: Option<string>) returns (envVars: Env)
    ensures envVars == Parsed(envs, file)
  {
    envVars := map[];
    for i := 0 to |envs|
      invariant envVars == ParseArguments(map[], envs[..i])
    {
      assert envs[..i + 1][..i] == envs[..i];
      var parts := Split(envs[i], '=');
      if |parts| > 1 && parts[0] != "" {
        envVars := Put(envVars, Pair(parts[0], Join(parts[1..], "=")));
      }
    }
    assert envs[..|envs|] == envs;
    if file.Some? {
      envVars := ParseFile(envVars, Split(file.value, '\n'));
    }
  }

  method ParseFile(start: Env, lines: seq<string>) returns (envVars: Env)
    ensures envVars == ParseLines(start, lines)
  {
    envVars := start;
    for i := 0 to |lines|
      invariant envVars == ParseLines(start, lines[..i])
    {
      assert lines[..i + 1][..i] == lines[..i];
      var pair := ScanLine(lines[i]);
      if pair.Some? {
        envVars := Put(envVars, pair.value);
      }
    }
    assert lines[..|lines|] == lines;
  }

  // ----- printing and reading back

  predicate GoodKey(k: string) {
    k != "" && !IsSpace(k[0]) && !IsSpace(k[|k| - 1]) &&
    forall i :: 0 <= i < |k| ==> !IsQuote(k[i]) && k[i] != '=' && k[i] != '#' && k[i] != '\n'
  }

  predicate GoodValue(v: string) {
    forall i :: 0 <= i < |v| ==> v[i] != '\'' && v[i] != '\n'
  }

  predicate GoodPair(p: Pair) {
    GoodKey(p.key) && GoodValue(p.value)
  }

  function Quoted(v: string): string {
    "'" + v + "'"
  }

  function PrintPair(p: Pair): string {
    p.key + "=" + Quoted(p.value)
  }

  lemma TrimTight(s: string)
    requires s != "" && !IsSpace(s[0]) && !IsSpace(s[|s| - 1])
    ensures Trim(s) == s
  {
  }

  /** The scan for '=' passes over a good key. */
  lemma {:induction false} DelimiterAfterKey(k: string, rest: string, i: nat)
    requires GoodKey(k) && i <= |k|
    ensures Delimiter(k + ("=" + rest), i, None) == Some(|k|)
    decreases |k| - i
  {
    var line := k + ("=" + rest);
    if i < |k| {
      assert line[i] == k[i];
      DelimiterAfterKey(k, rest, i + 1);
    } else {
      assert line[i] == '=';
    }
  }

  /** A printed line is neither blank nor a comment. */
  lemma KeyedLineNotSkipped(k: string, rest: string)
    requires GoodKey(k)
    ensures !Skipped(k + rest)
  {
    var line := k + rest;
    assert line[0] == k[0];
    assert TrimStart(line) == line;
    TrimEndKeepsFront(line);
    assert Trim(line)[..1] == [k[0]];
  }

  lemma KeyedLineParses(k: string, value: string)
    requires GoodKey(k)
    ensures ParseLine(k + ("=" + value)) == Some(Pair(k, ParseValue(value)))
  {
    var line := k + ("=" + value);
    KeyedLineNotSkipped(k, "=" + value);
    DelimiterAfterKey(k, value, 0);
    assert line[..|k|] == k && line[|k| + 1..] == value;
    TrimTight(k);
  }

  /** Inside single quotes nothing ends the value before the closing quote. */
  lemma {:induction false} CommentInsideQuotes(v: string, rest: string, i: nat)
    requires GoodValue(v) && 1 <= i <= |v| + 1
    ensures Comment("'" + v + rest, i, Some('\'')) == Comment("'" + v + rest, |v| + 1, Some('\''))
    decreases |v| + 1 - i
  {
    if i <= |v| {
      var s := "'" + v + rest;
      assert s[i] == v[i - 1];
      CommentInsideQuotes(v, rest, i + 1);
    }
  }

  lemma QuotedScan(v: string, rest: string)
    requires GoodValue(v)
    ensures Comment("'" + v + rest, 0, None) == Comment("'" + v + rest, |v| + 1, Some('\''))
  {
    CommentInsideQuotes(v, rest, 1);
  }

  lemma QuotedRoundTrip(v: string)
    requires GoodValue(v)
    ensures ParseValue(Quoted(v)) == v
  {
    var s := Quoted(v);
    QuotedScan(v, "'");
    assert s[|v| + 1] == '\'';
    assert Comment(s, |v| + 2, None) == None && Comment(s, |v| + 2, Some('\'')) == None;
    assert s[1..|s| - 1] == v;
  }

  /** Text without quotes after " #" is a comment from the space on. */
  lemma CommentFound(s: string, i: nat)
    requires i + 1 < |s| && s[i] == ' ' && s[i + 1] == '#'
    ensures Comment(s, i, None) == Some(i)
  {
    assert Comment(s, i, None) == Comment(s, i + 1, None);
  }

  lemma {:induction false} NoCommentInQuotes(s: string, i: nat)
    requires i <= |s| && forall j :: i <= j < |s| ==> !IsQuote(s[j])
    ensures Comment(s, i, Some('\'')) == None
    decreases |s| - i
  {
    if i < |s| {
      NoCommentInQuotes(s, i + 1);
    }
  }

  predicate GoodComment(c: string) {
    forall i :: 0 <= i < |c| ==> !IsQuote(c[i]) && c[i] != '\n'
  }

  predicate EndsInBackslash(v: string) {
    v != "" && v[|v| - 1] == '\\'
  }

  /** An inline comment is stripped exactly when the value does not end in a backslash. */
  lemma InlineComment(v: string, c: string)
    requires GoodValue(v) && GoodComment(c)
    ensures ParseValue(Quoted(v) + (" #" + c)) == v <==> !EndsInBackslash(v)
  {
    var tail := "' #" + c;
    var s := "'" + v + tail;
    assert Quoted(v) + (" #" + c) == s;
    QuotedScan(v, tail);
    var n := |v| + 1;
    assert s[n] == '\'' && s[n + 1] == ' ' && s[n + 2] == '#';
    assert s[n - 1] == if v == "" then '\'' else v[|v| - 1];
    if EndsInBackslash(v) {
      assert forall j :: n + 1 <= j < |s| ==> s[j] == (" #" + c)[j - n - 1];
      NoCommentInQuotes(s, n + 1);
      assert s[|s| - 1] == (" #" + c)[|c| + 1];
      TrimEndKeepsFront(s);
      assert TrimStart(s) == s;
      assert Unquote(s)[0] == '\'';
    } else {
      CommentFound(s, n + 1);
      assert s[..n + 1] == Quoted(v);
      assert Quoted(v)[1..|v| + 1] == v;
    }
  }

  // ----- whole files

  /** The lines a file may hold without changing what it means. */
  datatype Item =
    | Entry(pair: Pair)
    | Commented(pair: Pair, comment: string)
    | BlankLine(spaces: string)
    | CommentLine(spaces: string, comment: string)

  predicate AllSpaces(s: string) {
    forall i :: 0 <= i < |s| ==> IsSpace(s[i]) && s[i] != '\n'
  }

  predicate GoodItem(item: Item) {
    match item
    case Entry(p) => GoodPair(p)
    case Commented(p, c) => GoodPair(p) && GoodComment(c) && !EndsInBackslash(p.value)
    case BlankLine(spaces) => AllSpaces(spaces)
    case CommentLine(spaces, c) => AllSpaces(spaces) && '\n' !in c
  }

  function Render(item: Item): string {
    match item
    case Entry(p) => PrintPair(p)
    case Commented(p, c) => PrintPair(p) + (" #" + c)
    case BlankLine(spaces) => spaces
    case CommentLine(spaces, c) => spaces + ("#" + c)
  }

  function ItemPair(item: Item): seq<Pair> {
    match item
    case Entry(p) => [p]
    case Commented(p, _) => [p]
    case _ => []
  }

  function Pairs(items: seq<Item>): seq<Pair> {
    if items == [] then [] else Pairs(items[..|items| - 1]) + ItemPair(items[|items| - 1])
  }

  function RenderAll(items: seq<Item>): (lines: seq<string>)
    ensures |lines| == |items| && forall i :: 0 <= i < |items| ==> lines[i] == Render(items[i])
  {
    seq(|items|, i requires 0 <= i < |items| => Render(items[i]))
  }

  lemma {:induction false} SpacesTrim(spaces: string, rest: string)
    requires AllSpaces(spaces)
    ensures TrimStart(spaces + rest) == TrimStart(rest)
  {
    if spaces == "" {
      assert spaces + rest == rest;
    } else {
      SpacesTrim(spaces[1..], rest);
      assert (spaces + rest)[1..] == spaces[1..] + rest;
    }
  }

  lemma SkippedLines(spaces: string, c: string)
    requires AllSpaces(spaces)
    ensures Skipped(spaces) && Skipped(spaces + ("#" + c))
  {
    SpacesTrim(spaces, "");
    assert spaces + "" == spaces;
    SpacesTrim(spaces, "#" + c);
    TrimEndKeepsFront("#" + c);
    assert Trim(spaces + ("#" + c))[..1] == "#";
  }

  lemma ItemParses(item: Item)
    requires GoodItem(item)
    ensures ParseLine(Render(item)) == match item
                                       case Entry(p) => Some(p)
                                       case Commented(p, _) => Some(p)
                                       case _ => None
  {
    match item
    case Entry(p) =>
      assert Render(item) == p.key + ("=" + Quoted(p.value));
      KeyedLineParses(p.key, Quoted(p.value));
      QuotedRoundTrip(p.value);
    case Commented(p, c) =>
      assert Render(item) == p.key + ("=" + (Quoted(p.value) + (" #" + c)));
      KeyedLineParses(p.key, Quoted(p.value) + (" #" + c));
      InlineComment(p.value, c);
    case BlankLine(spaces) => SkippedLines(spaces, "");
    case CommentLine(spaces, c) => SkippedLines(spaces, c);
  }

  lemma RenderOneLine(item: Item)
    requires GoodItem(item)
    ensures '\n' !in Render(item)
  {
  }

  lemma {:induction false} PutAllAppend(m: Env, pairs: seq<Pair>, more: seq<Pair>)
    requires |more| <= 1
    ensures PutAll(m, pairs + more) == if more == [] then PutAll(m, pairs) else Put(PutAll(m, pairs), more[0])
  {
    if more == [] {
      assert pairs + more == pairs;
    } else {
      assert (pairs + more)[..|pairs|] == pairs;
    }
  }

  lemma {:induction false} ItemsParse(m: Env, items: seq<Item>)
    requires forall i :: 0 <= i < |items| ==> GoodItem(items[i])
    ensures ParseLines(m, RenderAll(items)) == PutAll(m, Pairs(items))
  {
    if items != [] {
      var n := |items| - 1;
      ItemsParse(m, items[..n]);
      ItemParses(items[n]);
      assert RenderAll(items)[..n] == RenderAll(items[..n]);
      PutAllAppend(m, Pairs(items[..n]), ItemPair(items[n]));
    }
  }

  /** The round trip: a file of quoted entries, with blank lines, comment lines and inline
      comments anywhere, parses to the last-wins map of its entries, on top of the arguments. */
  lemma FileRoundTrip(envs: seq<string>, items: seq<Item>)
    requires items != [] && forall i :: 0 <= i < |items| ==> GoodItem(items[i])
    ensures Parsed(envs, Some(Join(RenderAll(items), "\n"))) == PutAll(ParseArguments(map[], envs), Pairs(items))
  {
    forall p | p in RenderAll(items) ensures '\n' !in p {
      var i :| 0 <= i < |items| && RenderAll(items)[i] == p;
      RenderOneLine(items[i]);
    }
    assert "\n" == ['\n'];
    SplitJoin(RenderAll(items), '\n');
    ItemsParse(ParseArguments(map[], envs), items);
  }

  /** What last-wins means: a key has the value of its last pair, except that "__proto__" never gets one. */
  lemma {:induction false} PutAllIsLastWins(m: Env, pairs: seq<Pair>, i: nat)
    requires i < |pairs| && forall j :: i < j < |pairs| ==> pairs[j].key != pairs[i].key
    ensures if pairs[i].key == "__proto__" then (pairs[i].key in PutAll(m, pairs) <==> pairs[i].key in m)
            else pairs[i].key in PutAll(m, pairs) && PutAll(m, pairs)[pairs[i].key] == pairs[i].value
  {
    var n := |pairs| - 1;
    if i < n {
      PutAllIsLastWins(m, pairs[..n], i);
    } else if pairs[i].key == "__proto__" {
      ProtoNeverSet(m, pairs);
    }
  }

  lemma {:induction false} ProtoNeverSet(m: Env, pairs: seq<Pair>)
    ensures "__proto__" in PutAll(m, pairs) <==> "__proto__" in m
  {
    if pairs != [] {
      ProtoNeverSet(m, pairs[..|pairs| - 1]);
    }
  }

  /** A carriage return before the line feed makes a quoted value keep its quotes. */
  lemma CarriageReturnKeepsQuotes(p: Pair)
    requires GoodPair(p)
    ensures ParseLine(PrintPair(p) + "\r") == Some(Pair(p.key, Quoted(p.value)))
  {
    var s := Quoted(p.value) + "\r";
    assert PrintPair(p) + "\r" == p.key + ("=" + s);
    KeyedLineParses(p.key, s);
    NoCommentBeforeCr(p.value);
    assert s[|s| - 1] == '\r' && s[0] == '\'';
    TrimDropsCr(p.value);
  }

  /** What a carriage return at the end does to each kind of line: an entry gets the quotes
      into its value; a comment, at the end of an entry or alone, takes it in. */
  lemma CarriageReturnMatters(item: Item)
    requires GoodItem(item)
    ensures ParseLine(Render(item) + "\r") == if item.Entry? then Some(Pair(item.pair.key, Quoted(item.pair.value)))
                                              else ParseLine(Render(item))
    ensures ParseLine(Render(item) + "\r") == ParseLine(Render(item)) <==> !item.Entry?
  {
    ItemParses(item);
    match item
    case Entry(p) =>
      CarriageReturnKeepsQuotes(p);
      assert |Quoted(p.value)| != |p.value|;
    case Commented(p, c) => TakenIn(item, Commented(p, c + "\r"));
    case BlankLine(spaces) => TakenIn(item, BlankLine(spaces + "\r"));
    case CommentLine(spaces, c) => TakenIn(item, CommentLine(spaces, c + "\r"));
  }

  lemma TakenIn(item: Item, longer: Item)
    requires GoodItem(item) && !item.Entry?
    requires match item
             case Commented(p, c) => longer == Commented(p, c + "\r")
             case BlankLine(spaces) => longer == BlankLine(spaces + "\r")
             case CommentLine(spaces, c) => longer == CommentLine(spaces, c + "\r")
             case _ => false
    ensures ParseLine(Render(item) + "\r") == ParseLine(Render(item))
  {
    assert Render(item) + "\r" == Render(longer);
    ItemParses(item);
    ItemParses(longer);
  }

  lemma NoCommentBeforeCr(v: string)
    requires GoodValue(v)
    ensures Comment(Quoted(v) + "\r", 0, None) == None
  {
    var s := "'" + v + "'\r";
    assert Quoted(v) + "\r" == s;
    QuotedScan(v, "'\r");
    var n := |v| + 1;
    assert s[n] == '\'' && s[n + 1] == '\r';
    assert Comment(s, n + 1, None) == Comment(s, n + 2, None) == None;
    assert Comment(s, n + 1, Some('\'')) == Comment(s, n + 2, Some('\'')) == None;
  }

  lemma TrimDropsCr(v: string)
    ensures Trim(Quoted(v) + "\r") == Quoted(v)
  {
    var q := Quoted(v);
    var s := q + "\r";
    assert s[0] == '\'' && TrimStart(s) == s;
    assert s[|s| - 1] == '\r' && s[..|s| - 1] == q && q[|q| - 1] == '\'';
    assert TrimEnd(s) == TrimEnd(q) == q;
  }
}
