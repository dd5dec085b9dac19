/** Command lines spelled out option by option: what hoisting and parsing make of them. */
module HoistForms {
  import opened Text
  import opened Hoist

  /** The ways an option is written: `--flag`, `--name=value` and `--name value`. */
  datatype Written = Bare(name: string) | Inline(name: string, value: string) | Spaced(name: string, value: string)

  function Tokens(w: Written): Args {
    match w
    case Bare(name) => [name]
    case Inline(name, value) => [name + ("=" + value)]
    case Spaced(name, value) => [name, value]
  }

  function Spelled(ws: seq<Written>): Args {
    if ws == [] then [] else Tokens(ws[0]) + Spelled(ws[1..])
  }

  /** The ways of writing that a table knows. */
  predicate Fits(g: Table, w: Written) {
    match w
    case Bare(name) => name in g.negated || (name in g.arity && g.arity[name] == Flag)
    case Inline(name, _) => name in g.arity
    case Spaced(name, _) => name in g.arity && g.arity[name] == TakesValue
  }

  predicate AllFit(g: Table, ws: seq<Written>) {
    forall i :: 0 <= i < |ws| ==> Fits(g, ws[i])
  }

  predicate Undashed(words: Args) {
    forall i :: 0 <= i < |words| ==> !Dashed(words[i])
  }

  /** Behind the command words stands nothing or something with a dash. */
  predicate AtDash(tail: Args) {
    tail == [] || Dashed(tail[0])
  }

  /** No option of the table, in any way of writing, stands in front. */
  ghost predicate Stops(g: Table, rest: Args) {
    forall w :: Fits(g, w) ==> !(Tokens(w) <= rest)
  }

  lemma {:induction false} InlineParts(name: string, value: string)
    requires '=' !in name
    ensures OptionName(name + ("=" + value)) == name && InlineValue(name + ("=" + value)) == Some(value)
  {
    EqAt(name, value);
    var token := name + ("=" + value);
    assert token[..|name|] == name && token[|name| + 1..] == value;
  }

  lemma {:induction false} EqAt(name: string, value: string)
    requires '=' !in name
    ensures IndexOfEq(name + ("=" + value)) == |name|
  {
    var token := name + ("=" + value);
    if name != "" {
      EqAt(name[1..], value);
      assert token[0] == name[0] && token[1..] == name[1..] + ("=" + value);
    }
  }

  lemma TakesWritten(g: Table, w: Written, rest: Args)
    requires OptionTable(g) && Fits(g, w)
    ensures Taken(g, Tokens(w) + rest) == |Tokens(w)|
  {
    assert IsOptionName(w.name);
    match w
    case Inline(name, value) =>
      InlineParts(name, value);
      var token := name + ("=" + value);
      assert token[0] == name[0] && token[|name|] == '=' && token != "--";
    case _ => NameAlone(w.name);
  }

  lemma WrittenTaken(g: Table, argv: Args) returns (w: Written)
    requires OptionTable(g) && Taken(g, argv) > 0
    ensures Fits(g, w) && Tokens(w) == argv[..Taken(g, argv)]
  {
    var token := argv[0];
    var name, i := OptionName(token), IndexOfEq(token);
    if Taken(g, argv) == 2 {
      assert token == name;
      w := Spaced(name, argv[1]);
    } else if i == |token| {
      assert token == name;
      w := Bare(name);
    } else {
      assert token == name + ("=" + token[i + 1..]);
      w := Inline(name, token[i + 1..]);
    }
  }

  lemma {:induction false} SpelledLeads(g: Table, ws: seq<Written>, rest: Args)
    requires OptionTable(g) && AllFit(g, ws) && Taken(g, rest) == 0
    ensures LeadingLength(g, Spelled(ws) + rest) == |Spelled(ws)|
    decreases |ws|
  {
    if ws == [] {
      assert [] + rest == rest;
    } else {
      var first, others := Tokens(ws[0]), Spelled(ws[1..]);
      TakesWritten(g, ws[0], others + rest);
      SpelledLeads(g, ws[1..], rest);
      Associate(first, others, rest);
      assert (first + (others + rest))[|first|..] == others + rest;
    }
  }

  /** Options in front of the command words, in any way of writing, move behind them. */
  lemma OptionsHoisted(g: Table, ws: seq<Written>, words: Args, tail: Args)
    requires OptionTable(g) && AllFit(g, ws) && words != [] && Undashed(words) && AtDash(tail)
    ensures Hoisted(g, Spelled(ws) + (words + tail)) == words + (Spelled(ws) + tail)
  {
    var rest := words + tail;
    assert Taken(g, rest) == 0;
    SpelledLeads(g, ws, rest);
    var argv := Spelled(ws) + rest;
    assert Lead(g, argv) == Spelled(ws) && Rest(g, argv) == rest;
    SegmentsOf(words, tail);
    assert AfterSegments(rest) == tail;
  }

  /** Every command line is spelled options, command words and the rest, split where no
      further option can be read; hoisting exchanges the first two. */
  lemma {:induction false} HoistedExactly(g: Table, argv: Args) returns (ws: seq<Written>, words: Args, tail: Args)
    requires OptionTable(g)
    ensures AllFit(g, ws) && Undashed(words) && AtDash(tail) && Stops(g, words + tail)
    ensures argv == Spelled(ws) + (words + tail)
    ensures Hoisted(g, argv) == words + (Spelled(ws) + tail)
  {
    ws := LeadSpelled(g, argv);
    var rest := Rest(g, argv);
    words, tail := CommandSegments(rest), AfterSegments(rest);
    SegmentsSplit(rest);
    LeadThenRest(g, argv);
    RestStops(g, argv);
    NothingFits(g, rest);
  }

  lemma {:induction false} LeadSpelled(g: Table, argv: Args) returns (ws: seq<Written>)
    requires OptionTable(g)
    ensures AllFit(g, ws) && Spelled(ws) == Lead(g, argv)
    decreases |argv|
  {
    var k := Taken(g, argv);
    if k == 0 {
      ws := [];
    } else {
      var w := WrittenTaken(g, argv);
      var others := LeadSpelled(g, argv[k..]);
      ws := [w] + others;
      assert ws[1..] == others;
      LeadStep(g, argv);
    }
  }

  lemma LeadStep(g: Table, argv: Args)
    ensures var k := Taken(g, argv);
            k > 0 ==> Lead(g, argv) == argv[..k] + Lead(g, argv[k..])
  {
    var k := Taken(g, argv);
    if k > 0 {
      var n := LeadingLength(g, argv[k..]);
      assert LeadingLength(g, argv) == k + n;
      assert argv[..k + n] == argv[..k] + argv[k..][..n];
    }
  }

  lemma {:induction false} RestStops(g: Table, argv: Args)
    ensures Taken(g, Rest(g, argv)) == 0
    decreases |argv|
  {
    var k := Taken(g, argv);
    if k == 0 {
      assert Rest(g, argv) == argv;
    } else {
      RestStops(g, argv[k..]);
      assert Rest(g, argv) == Rest(g, argv[k..]);
    }
  }

  lemma NothingFits(g: Table, rest: Args)
    requires OptionTable(g) && Taken(g, rest) == 0
    ensures Stops(g, rest)
  {
    forall w | Fits(g, w) ensures !(Tokens(w) <= rest) {
      if Tokens(w) <= rest {
        var others := rest[|Tokens(w)|..];
        assert rest == Tokens(w) + others;
        TakesWritten(g, w, others);
      }
    }
  }

  /** Every name of the CLI's own table in front of a command, in each way it may be written. */
  lemma GlobalOptionHoisted(name: string, value: string, word: string)
    requires !Dashed(word)
    ensures name in {"--help", "-h", "--version", "-v", "--json", "-j", "--interactive", "--no-json"} ==>
              Hoisted(GLOBAL, [name, word]) == [word, name]
    ensures name in {"--api-token", "--api-key", "--cvm-id", "--profile", "--api-version", "--timeout"} ==>
              Hoisted(GLOBAL, [name, value, word]) == [word, name, value] &&
              Hoisted(GLOBAL, [name + ("=" + value), word]) == [word, name + ("=" + value)]
  {
    GlobalIsOptionTable();
    GlobalSets();
    ListedHoisted(GLOBAL_FLAGS, GLOBAL_VALUES, {"--no-json"}, name, value, word);
  }

  lemma ListedHoisted(flags: set<string>, values: set<string>, negated: set<string>, name: string, value: string,
                      word: string)
    requires OptionTable(TableOf(flags, values, negated)) && flags !! values && !Dashed(word)
    ensures var g := TableOf(flags, values, negated);
            (name in flags + negated ==> Hoisted(g, [name, word]) == [word, name]) &&
            (name in values ==>
               Hoisted(g, [name, value, word]) == [word, name, value] &&
               Hoisted(g, [name + ("=" + value), word]) == [word, name + ("=" + value)])
  {
    var g := TableOf(flags, values, negated);
    if name in flags + negated {
      OneHoisted(g, Bare(name), word);
      assert [name] + [word] == [name, word] && [word] + [name] == [word, name];
    }
    if name in values {
      OneHoisted(g, Spaced(name, value), word);
      OneHoisted(g, Inline(name, value), word);
      var token := name + ("=" + value);
      assert [name, value] + [word] == [name, value, word] && [word] + [name, value] == [word, name, value];
      assert [token] + [word] == [token, word] && [word] + [token] == [word, token];
    }
  }

  lemma OneHoisted(g: Table, w: Written, word: string)
    requires OptionTable(g) && Fits(g, w) && !Dashed(word)
    ensures Hoisted(g, Tokens(w) + [word]) == [word] + Tokens(w)
  {
    OptionsHoisted(g, [w], [word], []);
    assert Spelled([w]) == Tokens(w) by {
      assert [w][1..] == [] && Tokens(w) + [] == Tokens(w);
    }
    assert [word] + [] == [word] && Tokens(w) + [] == Tokens(w);
  }

  // ----- what the parser reads

  datatype Item = Option(written: Written) | Word(word: string)

  function Rendered(items: seq<Item>): Args {
    if items == [] then []
    else (if items[0].Option? then Tokens(items[0].written) else [items[0].word]) + Rendered(items[1..])
  }

  /** A value or a word: no dash in front, or nothing but the dash. */
  predicate Plain(token: string) {
    token == "-" || !Dashed(token)
  }

  /** What a parser can read: known names, values that do not look like options, words neither. */
  predicate Readable(p: Table, item: Item) {
    match item
    case Option(Bare(name)) => IsOptionName(name) && Kind(p, name) == Some(Flag)
    case Option(Inline(name, _)) => IsOptionName(name) && Kind(p, name).Some?
    case Option(Spaced(name, value)) =>
      IsOptionName(name) && Kind(p, name) == Some(TakesValue) && Plain(value)
    case Word(word) => Plain(word)
  }

  predicate AllReadable(p: Table, items: seq<Item>) {
    forall i :: 0 <= i < |items| ==> Readable(p, items[i])
  }

  /** Names with their values, in order; a flag has none, whatever is written behind it. */
  function OptionsOf(p: Table, items: seq<Item>): seq<(string, string)> {
    if items == [] then []
    else
      (match items[0]
       case Word(_) => []
       case Option(Bare(name)) => [(name, "")]
       case Option(Inline(name, value)) => [(name, if Kind(p, name) == Some(Flag) then "" else value)]
       case Option(Spaced(name, value)) => [(name, value)]) + OptionsOf(p, items[1..])
  }

  function WordsOf(items: seq<Item>): Args {
    if items == [] then [] else (if items[0].Word? then [items[0].word] else []) + WordsOf(items[1..])
  }

  function Prefixed(options: seq<(string, string)>, words: Args, r: Result<Reading, ScanError>):
    Result<Reading, ScanError>
  {
    match r
    case Ok(x) => Ok(Reading(options + x.options, words + x.positionals))
    case Err(e) => Err(e)
  }

  /** Readable items are read one by one, whatever follows. */
  lemma {:induction false} ScansItems(p: Table, items: seq<Item>, tail: Args)
    requires AllReadable(p, items)
    ensures Scan(p, Rendered(items) + tail) == Prefixed(OptionsOf(p, items), WordsOf(items), Scan(p, tail))
    decreases |items|
  {
    if items == [] {
      assert [] + tail == tail;
      if Scan(p, tail).Ok? {
        var x := Scan(p, tail).value;
        assert [] + x.options == x.options && [] + x.positionals == x.positionals;
      }
    } else {
      var others := Rendered(items[1..]);
      ScansItems(p, items[1..], tail);
      assert Readable(p, items[0]);
      match items[0]
      case Word(word) =>
        Associate([word], others, tail);
        assert ([word] + (others + tail))[1..] == others + tail;
        PrefixedWord(word, OptionsOf(p, items[1..]), WordsOf(items[1..]), Scan(p, tail));
      case Option(w) =>
        ScansWritten(p, w, others + tail);
        Associate(Tokens(w), others, tail);
        var o := (w.name, ValueRead(p, w));
        assert OptionsOf(p, items) == [o] + OptionsOf(p, items[1..]);
        PrefixedOption(o, OptionsOf(p, items[1..]), WordsOf(items[1..]), Scan(p, tail));
    }
  }

  function ValueRead(p: Table, w: Written): string {
    if w.Bare? || Kind(p, w.name) == Some(Flag) then "" else w.value
  }

  lemma ScansWritten(p: Table, w: Written, tail: Args)
    requires Readable(p, Option(w))
    ensures Scan(p, Tokens(w) + tail) == AddOption((w.name, ValueRead(p, w)), Scan(p, tail))
  {
    var argv := Tokens(w) + tail;
    if w.Inline? {
      InlineParts(w.name, w.value);
      assert argv[0][0] == '-';
    } else {
      NameAlone(w.name);
    }
    assert argv[|Tokens(w)|..] == tail;
  }

  lemma PrefixedWord(word: string, options: seq<(string, string)>, words: Args, r: Result<Reading, ScanError>)
    ensures AddPositional(word, Prefixed(options, words, r)) == Prefixed([] + options, [word] + words, r)
  {
    if r.Ok? {
      Associate([word], words, r.value.positionals);
      assert [] + options == options;
    }
  }

  lemma PrefixedOption(o: (string, string), options: seq<(string, string)>, words: Args, r: Result<Reading, ScanError>)
    ensures AddOption(o, Prefixed(options, words, r)) == Prefixed([o] + options, [] + words, r)
  {
    if r.Ok? {
      Associate([o], options, r.value.options);
      assert [] + words == words;
    }
  }

  lemma {:induction false} NoDoubleDash(p: Table, items: seq<Item>)
    requires AllReadable(p, items)
    ensures DoubleDash(Rendered(items)) == |Rendered(items)|
    decreases |items|
  {
    if items != [] {
      NoDoubleDash(p, items[1..]);
      assert Readable(p, items[0]);
      var first := if items[0].Option? then Tokens(items[0].written) else [items[0].word];
      if items[0].Option? && items[0].written.Inline? {
        assert first[0][|items[0].written.name|] == '=';
      }
      forall i | 0 <= i < |first| ensures first[i] != "--" {
      }
      FreeOfDashes(first);
      DashBehind(first, Rendered(items[1..]));
    }
  }

  lemma FreeOfDashes(a: Args)
    requires forall i :: 0 <= i < |a| ==> a[i] != "--"
    ensures DoubleDash(a) == |a|
  {
  }

  /** The parser reads back every option with its value and every word, in order, and passes
      through what stands behind "--". */
  lemma ParsesItems(p: Table, items: seq<Item>, passThrough: Args)
    requires AllReadable(p, items)
    ensures var reading := Reading(OptionsOf(p, items), WordsOf(items));
            ParseArguments(p, Rendered(items)) == Ok(Parsed(reading, [])) &&
            ParseArguments(p, Rendered(items) + (["--"] + passThrough)) == Ok(Parsed(reading, passThrough))
  {
    var argv := Rendered(items);
    NoDoubleDash(p, items);
    SplitAtDash(p, argv, passThrough);
    assert Scan(p, argv) == Ok(Reading(OptionsOf(p, items), WordsOf(items))) by {
      ScansItems(p, items, []);
      assert argv + [] == argv;
      assert OptionsOf(p, items) + [] == OptionsOf(p, items) && WordsOf(items) + [] == WordsOf(items);
    }
  }

  lemma SplitAtDash(p: Table, argv: Args, passThrough: Args)
    requires DoubleDash(argv) == |argv|
    ensures ParseArguments(p, argv) == WithPassThrough(Scan(p, argv), [])
    ensures ParseArguments(p, argv + (["--"] + passThrough)) == WithPassThrough(Scan(p, argv), passThrough)
  {
    assert argv[..|argv|] == argv;
    CutAtDash(argv, passThrough);
  }

  lemma CutAtDash(argv: Args, rest: Args)
    requires DoubleDash(argv) == |argv|
    ensures var all := argv + (["--"] + rest);
            DoubleDash(all) == |argv| < |all| && all[..|argv|] == argv && all[|argv| + 1..] == rest
  {
    DashBehind(argv, ["--"] + rest);
  }

  /** It fails with the name at the first option it does not know, or that lacks its value. */
  lemma ParseFails(p: Table, items: seq<Item>, bad: string, tail: Args)
    requires AllReadable(p, items) && !Plain(bad) && bad != "--"
    requires forall i :: 0 <= i < |tail| ==> tail[i] != "--"
    ensures Kind(p, OptionName(bad)) == None ==>
              ParseArguments(p, Rendered(items) + ([bad] + tail)) == Err(UnknownOption(OptionName(bad)))
    ensures Kind(p, bad) == Some(TakesValue) && '=' !in bad && (tail == [] || !Plain(tail[0])) ==>
              ParseArguments(p, Rendered(items) + ([bad] + tail)) == Err(MissingValue(bad))
  {
    var argv := Rendered(items);
    ScansItems(p, items, [bad] + tail);
    NoDoubleDash(p, items);
    FreeOfDashes([bad] + tail);
    DashBehind(argv, [bad] + tail);
    var all := argv + ([bad] + tail);
    assert all[..|all|] == all;
    if '=' !in bad {
      NameAlone(bad);
    }
  }
}
