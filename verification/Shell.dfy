/** Shell quoting of argument lists, against a tokeniser of the POSIX Shell Command Language. */
module Shell {
  import opened Text

  // The tokeniser follows sections 2.2.1 (backslash), 2.2.2 (single quotes) and 2.3 (tokens).

  // ----- the shell's side

  predicate IsBlank(c: char) {
    c == ' ' || c == '\t'
  }

  /** Characters that mean more than themselves when unquoted: operators, the newline,
      expansions, patterns, comments and tildes. Backslash and single quote have their own rules. */
  predicate IsSpecial(c: char) {
    c == '|' || c == '&' || c == ';' || c == '<' || c == '>' || c == '(' || c == ')' || c == '$' || c == '`' ||
    c == '"' || c == '\n' || c == '*' || c == '?' || c == '[' || c == '#' || c == '~'
  }

  predicate IsOrdinary(c: char) {
    !IsBlank(c) && !IsSpecial(c) && c != '\\' && c != '\''
  }

  /** What has been read: the finished words and, if one has begun, the word in progress.
      A word may have begun and still be empty, as after ''. */
  datatype Progress = Progress(words: seq<string>, current: Option<string>)

  function Extend(p: Progress, piece: string): Progress {
    p.(current := Some(p.current.GetOr("") + piece))
  }

  function Delimit(p: Progress): Progress {
    match p.current
    case None => p
    case Some(word) => Progress(p.words + [word], None)
  }

  /** The argument list a simple command line stands for; None when it contains an
      unquoted special character or ends inside a quotation. */
  function Scan(s: string, quoted: bool, p: Progress): Option<seq<string>> {
    if s == "" then
      if quoted then None else Some(Delimit(p).words)
    else if quoted then
      if s[0] == '\'' then Scan(s[1..], false, p) else Scan(s[1..], true, Extend(p, [s[0]]))
    else if s[0] == '\'' then Scan(s[1..], true, Extend(p, ""))
    else if s[0] == '\\' then
      if |s| == 1 then None
      else if s[1] == '\n' then Scan(s[2..], false, p)
      else Scan(s[2..], false, Extend(p, [s[1]]))
    else if IsBlank(s[0]) then Scan(s[1..], false, Delimit(p))
    else if IsSpecial(s[0]) then None
    else Scan(s[1..], false, Extend(p, [s[0]]))
  }

  function Tokenize(line: string): Option<seq<string>> {
    Scan(line, false, Progress([], None))
  }

  // ----- the quoting functions

  predicate IsAlnum(c: char) {
    'a' <= c <= 'z' || 'A' <= c <= 'Z' || IsDigit(c)
  }

  /** The class in shellEscape. */
  predicate IsEscapeSafe(c: char) {
    IsAlnum(c) || c == '_' || c == '.' || c == '/' || c == ':' || c == '@' || c == '=' || c == '-'
  }

  /** The class in the quoting of the retry command. */
  predicate IsRetrySafe(c: char) {
    IsEscapeSafe(c) || c == ',' || c == '+' || c == '%'
  }

  /** shellQuote leaves nothing bare. */
  predicate NeverSafe(c: char) {
    false
  }

  /** Every single quote becomes: close, escaped quote, reopen. */
  function ReplaceQuotes(arg: string): string {
    if arg == "" then ""
    else (if arg[0] == '\'' then ['\'', '\\', '\'', '\''] else [arg[0]]) + ReplaceQuotes(arg[1..])
  }

  function Quoted(arg: string): string {
    ['\''] + (ReplaceQuotes(arg) + ['\''])
  }

  predicate All(safe: char -> bool, arg: string) {
    forall i :: 0 <= i < |arg| ==> safe(arg[i])
  }

  function QuoteUnless(safe: char -> bool, arg: string): (r: string)
    ensures r == arg <==> arg != "" && All(safe, arg)
  {
    if arg != "" && All(safe, arg) then arg
    else
      ReplaceIsLonger(arg);
      Quoted(arg)
  }

  function CommandLine(safe: char -> bool, args: seq<string>): string {
    if args == [] then ""
    else if |args| == 1 then QuoteUnless(safe, args[0])
    else QuoteUnless(safe, args[0]) + ([' '] + CommandLine(safe, args[1..]))
  }

  lemma {:induction false} ReplaceIsLonger(arg: string)
    ensures |ReplaceQuotes(arg)| >= |arg|
  {
    if arg != "" {
      ReplaceIsLonger(arg[1..]);
    }
  }

  // ----- reading back

  lemma ScanStep(c: char, rest: string, quoted: bool, p: Progress)
    ensures quoted && c != '\'' ==> Scan([c] + rest, true, p) == Scan(rest, true, Extend(p, [c]))
    ensures quoted && c == '\'' ==> Scan([c] + rest, true, p) == Scan(rest, false, p)
    ensures !quoted && IsOrdinary(c) ==> Scan([c] + rest, false, p) == Scan(rest, false, Extend(p, [c]))
    ensures !quoted && c == '\'' ==> Scan([c] + rest, false, p) == Scan(rest, true, Extend(p, ""))
    ensures !quoted && IsBlank(c) ==> Scan([c] + rest, false, p) == Scan(rest, false, Delimit(p))
  {
    assert ([c] + rest)[1..] == rest;
  }

  lemma ScanEscape(rest: string, p: Progress)
    ensures Scan(['\\'] + (['\''] + rest), false, p) == Scan(rest, false, Extend(p, ['\'']))
  {
    var s := ['\\'] + (['\''] + rest);
    assert s[2..] == rest && s[1] == '\'';
  }

  lemma ExtendTwice(p: Progress, a: string, b: string)
    ensures Extend(Extend(p, a), b) == Extend(p, a + b)
  {
    Associate(p.current.GetOr(""), a, b);
  }

  lemma ExtendEmpty(p: Progress)
    requires p.current.Some?
    ensures Extend(p, "") == p
  {
    assert p.current.value + "" == p.current.value;
  }

  /** Inside quotes, an escaped single quote is read as one single quote. */
  lemma ScanEscapedQuote(rest: string, p: Progress)
    requires p.current.Some?
    ensures Scan(['\'', '\\', '\'', '\''] + rest, true, p) == Scan(rest, true, Extend(p, ['\'']))
  {
    var q := Extend(p, ['\'']);
    assert ['\'', '\\', '\'', '\''] + rest == ['\''] + (['\\'] + (['\''] + (['\''] + rest)));
    ScanStep('\'', ['\\'] + (['\''] + (['\''] + rest)), true, p);
    ScanEscape(['\''] + rest, p);
    ScanStep('\'', rest, false, q);
    ExtendEmpty(q);
  }

  /** Inside quotes, the replaced text is read as the text, up to the closing quote. */
  lemma {:induction false} ScanReplaced(arg: string, rest: string, p: Progress)
    requires p.current.Some?
    ensures Scan(ReplaceQuotes(arg) + (['\''] + rest), true, p) == Scan(rest, false, Extend(p, arg))
  {
    if arg == "" {
      assert ReplaceQuotes(arg) + (['\''] + rest) == ['\''] + rest;
      ScanStep('\'', rest, true, p);
      ExtendEmpty(p);
    } else {
      var tail := ReplaceQuotes(arg[1..]) + (['\''] + rest);
      var q := Extend(p, [arg[0]]);
      Associate(if arg[0] == '\'' then ['\'', '\\', '\'', '\''] else [arg[0]], ReplaceQuotes(arg[1..]), ['\''] + rest);
      if arg[0] == '\'' {
        ScanEscapedQuote(tail, p);
      } else {
        ScanStep(arg[0], tail, true, p);
      }
      ScanReplaced(arg[1..], rest, q);
      ExtendTwice(p, [arg[0]], arg[1..]);
      assert [arg[0]] + arg[1..] == arg;
    }
  }

  lemma {:induction false} ScanOrdinary(arg: string, rest: string, p: Progress)
    requires arg != "" && All(IsOrdinary, arg)
    ensures Scan(arg + rest, false, p) == Scan(rest, false, Extend(p, arg))
  {
    var q := Extend(p, [arg[0]]);
    assert arg + rest == [arg[0]] + (arg[1..] + rest);
    ScanStep(arg[0], arg[1..] + rest, false, p);
    if |arg| == 1 {
      assert arg[1..] + rest == rest && [arg[0]] == arg;
    } else {
      ScanOrdinary(arg[1..], rest, q);
      ExtendTwice(p, [arg[0]], arg[1..]);
      assert [arg[0]] + arg[1..] == arg;
    }
  }

  /** Whatever follows, the shell reads a quoted argument as exactly that argument. */
  lemma ScanQuoted(safe: char -> bool, arg: string, rest: string, words: seq<string>)
    requires forall c :: safe(c) ==> IsOrdinary(c)
    ensures Scan(QuoteUnless(safe, arg) + rest, false, Progress(words, None)) ==
            Scan(rest, false, Progress(words, Some(arg)))
  {
    var p := Progress(words, None);
    if arg != "" && All(safe, arg) {
      ScanOrdinary(arg, rest, p);
      assert "" + arg == arg;
    } else {
      var body := ReplaceQuotes(arg);
      Associate(['\''], body + ['\''], rest);
      Associate(body, ['\''], rest);
      ScanStep('\'', body + (['\''] + rest), false, p);
      ScanReplaced(arg, rest, Extend(p, ""));
      ExtendTwice(p, "", arg);
      assert "" + arg == arg;
    }
  }

  lemma {:induction false} ScanCommandLine(safe: char -> bool, args: seq<string>, words: seq<string>)
    requires forall c :: safe(c) ==> IsOrdinary(c)
    ensures Scan(CommandLine(safe, args), false, Progress(words, None)) == Some(words + args)
  {
    if args == [] {
      assert words + args == words;
    } else if |args| == 1 {
      ScanQuoted(safe, args[0], "", words);
      assert QuoteUnless(safe, args[0]) + "" == QuoteUnless(safe, args[0]);
      assert [args[0]] == args;
    } else {
      var tail := CommandLine(safe, args[1..]);
      ScanQuoted(safe, args[0], [' '] + tail, words);
      ScanStep(' ', tail, false, Progress(words, Some(args[0])));
      ScanCommandLine(safe, args[1..], words + [args[0]]);
      Associate(words, [args[0]], args[1..]);
      assert [args[0]] + args[1..] == args;
    }
  }

  /** Joining escaped arguments with spaces and tokenising gives back exactly the list:
      empty arguments, embedded quotes, blanks, newlines and all. */
  lemma ShellEscapeRoundTrip(args: seq<string>)
    ensures Tokenize(CommandLine(IsEscapeSafe, args)) == Some(args)
  {
    ScanCommandLine(IsEscapeSafe, args, []);
    assert [] + args == args;
  }

  lemma ShellQuoteRoundTrip(args: seq<string>)
    ensures Tokenize(CommandLine(NeverSafe, args)) == Some(args)
  {
    ScanCommandLine(NeverSafe, args, []);
    assert [] + args == args;
  }

  lemma RetryQuoteRoundTrip(args: seq<string>)
    ensures Tokenize(CommandLine(IsRetrySafe, args)) == Some(args)
  {
    ScanCommandLine(IsRetrySafe, args, []);
    assert [] + args == args;
  }

  /** Leaving arguments of a given class of characters bare is right for every list of
      arguments exactly when the shell gives no character of the class a meaning of its own. */
  lemma SafeClassesAreOrdinary(safe: char -> bool)
    ensures (forall args :: Tokenize(CommandLine(safe, args)) == Some(args))
            <==> (forall c :: safe(c) ==> IsOrdinary(c))
  {
    if forall c :: safe(c) ==> IsOrdinary(c) {
      forall args ensures Tokenize(CommandLine(safe, args)) == Some(args) {
        ScanCommandLine(safe, args, []);
        assert [] + args == args;
      }
    } else {
      var c :| safe(c) && !IsOrdinary(c);
      var args := [[c]];
      assert CommandLine(safe, args) == [c];
      BareSpecial(c);
      assert Tokenize(CommandLine(safe, args)) != Some(args);
    }
  }

  lemma BareSpecial(c: char)
    requires !IsOrdinary(c)
    ensures Tokenize([c]) != Some([[c]])
  {
    var p := Progress([], None);
    assert [c] + "" == [c];
    ScanStep(c, "", false, p);
    if IsBlank(c) {
      assert Delimit(p) == p && Scan("", false, p) == Some([]);
    }
  }

  // ----- the text that is written

  /** Replacing every single quote, piece by piece between the quotes. */
  lemma {:induction false} ReplacedByPieces(arg: string)
    ensures ReplaceQuotes(arg) == Join(Split(arg, '\''), "'\\''")
  {
    if arg != "" {
      ReplacedByPieces(arg[1..]);
      var rest := Split(arg[1..], '\'');
      if arg[0] == '\'' {
        assert Split(arg, '\'') == [""] + rest && ([""] + rest)[1..] == rest;
        assert "'\\''" == ['\'', '\\', '\'', '\''];
        assert "" + "'\\''" == "'\\''";
      } else {
        FirstPiece(arg[0], rest);
        assert Split(arg, '\'') == [[arg[0]] + rest[0]] + rest[1..];
      }
    }
  }

  lemma FirstPiece(c: char, rest: seq<string>)
    requires rest != []
    ensures Join([[c] + rest[0]] + rest[1..], "'\\''") == [c] + Join(rest, "'\\''")
  {
    var all := [[c] + rest[0]] + rest[1..];
    assert all[1..] == rest[1..];
    if |rest| > 1 {
      var tail := "'\\''" + Join(rest[1..], "'\\''");
      Associate([c], rest[0], tail);
      Associate([c] + rest[0], "'\\''", Join(rest[1..], "'\\''"));
      Associate(rest[0], "'\\''", Join(rest[1..], "'\\''"));
    }
  }

  predicate IsWordChar(c: char) {
    'a' <= c <= 'z' || 'A' <= c <= 'Z' || '0' <= c <= '9' || c == '_'
  }

  function Wrapped(arg: string): string {
    "'" + (Join(Split(arg, '\''), "'\\''") + "'")
  }

  /** The three quotings, spelled out. */
  lemma QuotedForms(arg: string)
    ensures QuoteUnless(IsEscapeSafe, arg) ==
            if arg != "" && forall i :: 0 <= i < |arg| ==> IsWordChar(arg[i]) || arg[i] in "./:@=-" then arg
            else Wrapped(arg)
    ensures QuoteUnless(IsRetrySafe, arg) ==
            if arg != "" && forall i :: 0 <= i < |arg| ==> IsWordChar(arg[i]) || arg[i] in "./:@=-,+%" then arg
            else Wrapped(arg)
    ensures QuoteUnless(NeverSafe, arg) == Wrapped(arg)
  {
    ReplacedByPieces(arg);
    assert "'" == ['\''];
    forall i | 0 <= i < |arg|
      ensures IsEscapeSafe(arg[i]) <==> IsWordChar(arg[i]) || arg[i] in "./:@=-"
      ensures IsRetrySafe(arg[i]) <==> IsWordChar(arg[i]) || arg[i] in "./:@=-,+%"
    {
      ClassesListed(arg[i]);
    }
  }

  lemma ClassesListed(c: char)
    ensures IsEscapeSafe(c) <==> IsWordChar(c) || c in "./:@=-"
    ensures IsRetrySafe(c) <==> IsWordChar(c) || c in "./:@=-,+%"
  {
  }
}
