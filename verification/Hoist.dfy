/** Hoisting global options written in front of the command, and why parsing does not notice. */
module Hoist {
  import opened Text

  datatype Arity = Flag | TakesValue

  /** Option names, shorthands and aliases with what they take; negated names apart. */
  datatype Table = Table(arity: map<string, Arity>, negated: set<string>)

  function TableOf(flags: set<string>, values: set<string>, negated: set<string>): Table {
    Table(map name | name in flags + values :: if name in values then TakesValue else Flag, negated)
  }

  const GLOBAL_FLAGS: set<string> := {"--help", "-h", "--version", "-v", "--json", "-j", "--interactive"}

  const GLOBAL_VALUES: set<string> :=
    {"--api-token", "--api-key", "--cvm-id", "--profile", "--api-version", "--timeout"}

  /** The global options of the CLI. */
  const GLOBAL: Table := TableOf(GLOBAL_FLAGS, GLOBAL_VALUES, {"--no-json"})

  type Args = seq<string>

  predicate Dashed(token: string) {
    token != "" && token[0] == '-'
  }

  function IndexOfEq(s: string): (i: nat)
    ensures i <= |s| && (i < |s| ==> s[i] == '=')
  {
    if s == "" || s[0] == '=' then 0 else 1 + IndexOfEq(s[1..])
  }

  function OptionName(token: string): string {
    token[..IndexOfEq(token)]
  }

  function InlineValue(token: string): Option<string> {
    if IndexOfEq(token) == |token| then None else Some(token[IndexOfEq(token) + 1..])
  }

  // ----- the hoister

  /** How many tokens the first recognised global option takes: 0 when there is none. */
  function Taken(g: Table, argv: Args): (n: nat)
    ensures n <= |argv| && n <= 2
    ensures n > 0 ==> Dashed(argv[0]) && argv[0] != "--"
  {
    if argv == [] || !Dashed(argv[0]) || argv[0] == "--" then 0
    else if OptionName(argv[0]) in g.negated && InlineValue(argv[0]) == None then 1
    else if OptionName(argv[0]) !in g.arity then 0
    else if g.arity[OptionName(argv[0])] == TakesValue && InlineValue(argv[0]) == None then
      if |argv| == 1 then 0 else 2
    else 1
  }

  /** The tokens in front that are global options with their values. */
  function LeadingLength(g: Table, argv: Args): (n: nat)
    ensures n <= |argv|
    decreases |argv|
  {
    var k := Taken(g, argv);
    if k == 0 then 0 else k + LeadingLength(g, argv[k..])
  }

  /** The tokens before the first one that starts with a dash. */
  function CommandSegments(argv: Args): Args {
    if argv == [] || Dashed(argv[0]) then [] else [argv[0]] + CommandSegments(argv[1..])
  }

  lemma {:induction false} SegmentsArePrefix(argv: Args)
    ensures CommandSegments(argv) <= argv
    ensures forall i :: 0 <= i < |CommandSegments(argv)| ==> !Dashed(argv[i])
    ensures |CommandSegments(argv)| < |argv| ==> Dashed(argv[|CommandSegments(argv)|])
  {
    if argv != [] && !Dashed(argv[0]) {
      SegmentsArePrefix(argv[1..]);
    }
  }

  /** What follows the command words. */
  function AfterSegments(rest: Args): Args {
    SegmentsArePrefix(rest);
    rest[|CommandSegments(rest)|..]
  }

  function Lead(g: Table, argv: Args): Args {
    argv[..LeadingLength(g, argv)]
  }

  function Rest(g: Table, argv: Args): Args {
    argv[LeadingLength(g, argv)..]
  }

  function Hoisted(g: Table, argv: Args): Args {
    CommandSegments(Rest(g, argv)) + (Lead(g, argv) + AfterSegments(Rest(g, argv)))
  }

  lemma SegmentsSplit(rest: Args)
    ensures CommandSegments(rest) + AfterSegments(rest) == rest
    ensures forall i :: 0 <= i < |CommandSegments(rest)| ==> !Dashed(CommandSegments(rest)[i])
    ensures AfterSegments(rest) == [] || Dashed(AfterSegments(rest)[0])
  {
    SegmentsArePrefix(rest);
  }

  /** One turn of the loop at `index`: how far it moves, 0 when it stops. */
  method NextIndex(g: Table, argv: Args, index: nat) returns (k: nat)
    requires index < |argv|
    ensures k == Taken(g, argv[index..])
  {
    var token := argv[index];
    assert argv[index..][0] == token;
    if !Dashed(token) || token == "--" { return 0; }
    var name, inlineValue := OptionName(token), InlineValue(token);
    if name in g.negated && inlineValue == None { return 1; }
    if name !in g.arity { return 0; }
    if g.arity[name] == TakesValue && inlineValue == None {
      if index + 1 >= |argv| { return 0; }
      return 2;
    }
    return 1;
  }

  lemma LeadingStep(g: Table, argv: Args, index: nat)
    requires index < |argv|
    ensures var k := Taken(g, argv[index..]);
            index + k <= |argv| &&
            LeadingLength(g, argv[index..]) == if k == 0 then 0 else k + LeadingLength(g, argv[index + k..])
  {
    var k := Taken(g, argv[index..]);
    assert argv[index..][k..] == argv[index + k..];
  }

  method HoistLeadingGlobalOptions(g: Table, argv: Args) returns (r: Args)
    ensures r == Hoisted(g, argv)
  {
    var index, leading := TakeLeading(g, argv);
    if |leading| == 0 {
      NoLeadingUnchanged(g, argv);
      return argv;
    }
    r := InsertAfterSegments(argv[index..], leading);
  }

  /** One turn of the loop over the leading options; `more` says whether it moved. */
  method Advance(g: Table, argv: Args, index: nat, leading: Args) returns (next: nat, block: Args, more: bool)
    requires index < |argv| && LeadingUpTo(g, argv, index, leading)
    ensures more ==> index < next <= |argv|
    ensures LeadingUpTo(g, argv, next, block)
    ensures !more ==> next == LeadingLength(g, argv)
  {
    LeadingStep(g, argv, index);
    var k := NextIndex(g, argv, index);
    next, block, more := index + k, leading + argv[index..index + k], k > 0;
    TakeMore(argv, index, k);
  }

  /** The first `index` tokens have been collected, and those behind them decide how many more follow. */
  predicate LeadingUpTo(g: Table, argv: Args, index: nat, leading: Args) {
    index <= |argv| && leading == argv[..index] && LeadingLength(g, argv) == index + LeadingLength(g, argv[index..])
  }

  lemma LeadingStarts(g: Table, argv: Args)
    ensures LeadingUpTo(g, argv, 0, [])
  {
    assert argv[0..] == argv;
  }

  lemma LeadingEnds(g: Table, argv: Args, index: nat, leading: Args)
    requires LeadingUpTo(g, argv, index, leading) && (index == |argv| || index == LeadingLength(g, argv))
    ensures index == LeadingLength(g, argv) && leading == Lead(g, argv)
  {
  }

  method TakeLeading(g: Table, argv: Args) returns (index: nat, leading: Args)
    ensures index == LeadingLength(g, argv) && leading == Lead(g, argv)
  {
    leading := [];
    index := 0;
    LeadingStarts(g, argv);
    while index < |argv|
      invariant LeadingUpTo(g, argv, index, leading)
      decreases |argv| - index
    {
      var more: bool;
      index, leading, more := Advance(g, argv, index, leading);
      if !more { break; }
    }
    LeadingEnds(g, argv, index, leading);
  }

  lemma TakeMore(argv: Args, i: nat, k: nat)
    requires i + k <= |argv|
    ensures argv[..i + k] == argv[..i] + argv[i..i + k]
  {
  }

  method InsertAfterSegments(rest: Args, leading: Args) returns (r: Args)
    ensures r == CommandSegments(rest) + (leading + AfterSegments(rest))
  {
    var splitAt := FindDashed(rest);
    SegmentsArePrefix(rest);
    Associate(rest[..splitAt], leading, rest[splitAt..]);
    return rest[..splitAt] + leading + rest[splitAt..];
  }

  method FindDashed(rest: Args) returns (k: nat)
    ensures k == |CommandSegments(rest)| && k <= |rest|
  {
    k := 0;
    SegmentsArePrefix(rest);
    while k < |rest| && !Dashed(rest[k])
      invariant k <= |rest| && |CommandSegments(rest)| == k + |CommandSegments(rest[k..])|
    {
      assert rest[k..][1..] == rest[k + 1..];
      k := k + 1;
    }
  }

  // ----- a block move

  /** Hoisting moves one block, the leading options, behind the command words. */
  lemma HoistingIsABlockMove(g: Table, argv: Args)
    ensures var lead, head, tail := Lead(g, argv), CommandSegments(Rest(g, argv)), AfterSegments(Rest(g, argv));
            argv == lead + (head + tail) && Hoisted(g, argv) == head + (lead + tail)
  {
    SegmentsSplit(Rest(g, argv));
    LeadThenRest(g, argv);
  }

  /** No token is lost, added or repeated. */
  lemma HoistingPermutes(g: Table, argv: Args)
    ensures multiset(Hoisted(g, argv)) == multiset(argv)
  {
    HoistingIsABlockMove(g, argv);
    SwapKeepsTokens(Lead(g, argv), CommandSegments(Rest(g, argv)), AfterSegments(Rest(g, argv)));
  }

  lemma LeadThenRest(g: Table, argv: Args)
    ensures Lead(g, argv) + Rest(g, argv) == argv
  {
  }

  lemma SwapKeepsTokens(a: Args, b: Args, c: Args)
    ensures multiset(a + (b + c)) == multiset(b + (a + c))
  {
  }

  lemma NoLeadingUnchanged(g: Table, argv: Args)
    requires LeadingLength(g, argv) == 0
    ensures Hoisted(g, argv) == argv
  {
    SegmentsSplit(argv);
    assert Rest(g, argv) == argv && Lead(g, argv) == [];
    assert [] + AfterSegments(argv) == AfterSegments(argv);
  }

  lemma HoistingIdempotent(g: Table, argv: Args)
    ensures Hoisted(g, Hoisted(g, argv)) == Hoisted(g, argv)
  {
    var rest := Rest(g, argv);
    SegmentsSplit(rest);
    if CommandSegments(rest) == [] {
      HoistingIsABlockMove(g, argv);
      assert [] + AfterSegments(rest) == AfterSegments(rest);
      assert Hoisted(g, argv) == argv;
    } else {
      assert Hoisted(g, argv)[0] == CommandSegments(rest)[0];
      NoLeadingUnchanged(g, Hoisted(g, argv));
    }
  }

  lemma {:induction false} SegmentsOf(head: Args, tail: Args)
    requires forall i :: 0 <= i < |head| ==> !Dashed(head[i])
    requires tail == [] || Dashed(tail[0])
    ensures CommandSegments(head + tail) == head
  {
    if head == [] {
      assert head + tail == tail;
    } else {
      SegmentsOf(head[1..], tail);
      assert (head + tail)[1..] == head[1..] + tail;
      assert [head[0]] + head[1..] == head;
    }
  }

  /** Command resolution sees the words it would see without the leading options. */
  lemma SegmentsAfterHoisting(g: Table, argv: Args)
    ensures CommandSegments(Hoisted(g, argv)) == CommandSegments(Rest(g, argv))
  {
    var rest := Rest(g, argv);
    SegmentsSplit(rest);
    var tail := Lead(g, argv) + AfterSegments(rest);
    assert Lead(g, argv) != [] ==> tail[0] == argv[0];
    assert Lead(g, argv) == [] ==> tail == AfterSegments(rest);
    SegmentsOf(CommandSegments(rest), tail);
  }

  // ----- parsing

  datatype Reading = Reading(options: seq<(string, string)>, positionals: Args)

  datatype ScanError = UnknownOption(name: string) | MissingValue(name: string)

  function Kind(p: Table, name: string): Option<Arity> {
    if name in p.negated then Some(Flag) else if name in p.arity then Some(p.arity[name]) else None
  }

  function AddOption(o: (string, string), r: Result<Reading, ScanError>): Result<Reading, ScanError> {
    match r
    case Ok(x) => Ok(x.(options := [o] + x.options))
    case Err(e) => Err(e)
  }

  function AddPositional(token: string, r: Result<Reading, ScanError>): Result<Reading, ScanError> {
    match r
    case Ok(x) => Ok(x.(positionals := [token] + x.positionals))
    case Err(e) => Err(e)
  }

  predicate LooksLikeOption(token: string) {
    |token| > 1 && token[0] == '-'
  }

  /** A left-to-right scan. A value may not look like an option; a lone dash is positional. */
  function Scan(p: Table, argv: Args): Result<Reading, ScanError>
    decreases |argv|
  {
    if argv == [] then Ok(Reading([], []))
    else if !LooksLikeOption(argv[0]) then AddPositional(argv[0], Scan(p, argv[1..]))
    else
      var name := OptionName(argv[0]);
      match Kind(p, name)
      case None => Err(UnknownOption(name))
      case Some(Flag) => AddOption((name, ""), Scan(p, argv[1..]))
      case Some(TakesValue) =>
        match InlineValue(argv[0])
        case Some(v) => AddOption((name, v), Scan(p, argv[1..]))
        case None =>
          if |argv| == 1 || LooksLikeOption(argv[1]) then Err(MissingValue(name))
          else AddOption((name, argv[1]), Scan(p, argv[2..]))
  }

  /** Position of the first "--", or the length. */
  function DoubleDash(argv: Args): (d: nat)
    ensures d <= |argv| && (d < |argv| ==> argv[d] == "--")
    ensures forall i :: 0 <= i < d ==> argv[i] != "--"
  {
    if argv == [] || argv[0] == "--" then 0 else 1 + DoubleDash(argv[1..])
  }

  datatype Parsed = Parsed(reading: Reading, passThrough: Args)

  /** parseCommandArguments: split at "--", scan what is before it. */
  function ParseArguments(p: Table, argv: Args): Result<Parsed, ScanError> {
    var d := DoubleDash(argv);
    match Scan(p, argv[..d])
    case Err(e) => Err(e)
    case Ok(r) => Ok(Parsed(r, if d == |argv| then [] else argv[d + 1..]))
  }

  /** A dash, a second character that does not make it the bare "--", and no '='. */
  predicate IsOptionName(name: string) {
    |name| >= 2 && name[0] == '-' && name != "--" && '=' !in name
  }

  /** The tables that are built from option definitions. */
  predicate OptionTable(g: Table) {
    && (forall name :: name in g.arity ==> IsOptionName(name) && name !in g.negated)
    && (forall name :: name in g.negated ==> IsOptionName(name))
  }

  function GlobalKind(g: Table, name: string): Arity {
    if name in g.arity then g.arity[name] else Flag
  }

  predicate SameKind(p: Table, g: Table, name: string) {
    Kind(p, name) == None || Kind(p, name) == Some(GlobalKind(g, name))
  }

  /** Every global name that the parser's table knows has the same kind there. */
  predicate Agrees(p: Table, g: Table) {
    forall name :: name in g.arity.Keys + g.negated ==> SameKind(p, g, name)
  }

  function AddPositionals(head: Args, r: Result<Reading, ScanError>): Result<Reading, ScanError> {
    match r
    case Ok(x) => Ok(x.(positionals := head + x.positionals))
    case Err(e) => Err(e)
  }

  /** Reading `first`, which holds no positionals, and then `second`. */
  function Then(first: Result<Reading, ScanError>, second: Result<Reading, ScanError>): Result<Reading, ScanError> {
    match first
    case Err(e) => Err(e)
    case Ok(x) =>
      match second
      case Ok(y) => Ok(y.(options := x.options + y.options))
      case Err(e) => Err(e)
  }

  lemma {:induction false} ScanPositionals(p: Table, head: Args, tail: Args)
    requires forall i :: 0 <= i < |head| ==> !Dashed(head[i])
    ensures Scan(p, head + tail) == AddPositionals(head, Scan(p, tail))
  {
    if head == [] {
      assert head + tail == tail;
      assert Scan(p, tail).Ok? ==> [] + Scan(p, tail).value.positionals == Scan(p, tail).value.positionals;
    } else {
      ScanPositionals(p, head[1..], tail);
      assert (head + tail)[0] == head[0] && (head + tail)[1..] == head[1..] + tail;
      if Scan(p, tail).Ok? {
        assert [head[0]] + (head[1..] + Scan(p, tail).value.positionals) == head + Scan(p, tail).value.positionals;
      }
    }
  }

  /** Hoisted tokens: recognised options with their values, one after the other. */
  predicate IsLeading(g: Table, lead: Args)
    decreases |lead|
  {
    lead == [] || (Taken(g, lead) > 0 && IsLeading(g, lead[Taken(g, lead)..]))
  }

  lemma {:induction false} LeadIsLeading(g: Table, argv: Args)
    ensures IsLeading(g, Lead(g, argv))
    decreases |argv|
  {
    var k := Taken(g, argv);
    if k > 0 {
      LeadIsLeading(g, argv[k..]);
      var lead := Lead(g, argv);
      assert lead[0] == argv[0] && lead[k..] == Lead(g, argv[k..]);
      assert Taken(g, lead) == k;
    }
  }

  function InlineOr(p: Table, token: string): string {
    if Kind(p, OptionName(token)) == Some(Flag) then "" else InlineValue(token).GetOr("")
  }

  lemma LooksLikeOne(g: Table, token: string)
    requires OptionTable(g) && Dashed(token) && (OptionName(token) in g.arity || OptionName(token) in g.negated)
    ensures LooksLikeOption(token)
  {
    assert IsOptionName(OptionName(token));
  }

  /** An option that takes one token reads the same wherever it stands. */
  lemma OneToken(p: Table, g: Table, lead: Args, tail: Args)
    requires OptionTable(g) && Agrees(p, g) && Taken(g, lead) == 1
    ensures var name := OptionName(lead[0]);
            Scan(p, [lead[0]] + tail) ==
            if Kind(p, name) == None then Err(UnknownOption(name))
            else AddOption((name, InlineOr(p, lead[0])), Scan(p, tail))
  {
    LooksLikeOne(g, lead[0]);
    assert SameKind(p, g, OptionName(lead[0]));
    assert ([lead[0]] + tail)[1..] == tail;
  }

  /** So does one that takes two, or it fails at once. */
  lemma TwoTokens(p: Table, g: Table, lead: Args, tail: Args)
    requires OptionTable(g) && Agrees(p, g) && Taken(g, lead) == 2
    ensures Scan(p, [lead[0]]).Err?
    ensures var name := OptionName(lead[0]);
            Scan(p, [lead[0], lead[1]] + tail) ==
            if Kind(p, name) == None then Err(UnknownOption(name))
            else if LooksLikeOption(lead[1]) then Err(MissingValue(name))
            else AddOption((name, lead[1]), Scan(p, tail))
  {
    LooksLikeOne(g, lead[0]);
    assert SameKind(p, g, OptionName(lead[0]));
    assert ([lead[0], lead[1]] + tail)[2..] == tail;
  }

  lemma ThenAddOption(o: (string, string), first: Result<Reading, ScanError>, second: Result<Reading, ScanError>)
    ensures Then(AddOption(o, first), second) == AddOption(o, Then(first, second))
  {
    if first.Ok? && second.Ok? {
      Associate([o], first.value.options, second.value.options);
    }
  }

  /** The leading block contributes options only, or the same error, whatever follows it. */
  lemma {:induction false} ScanLeading(p: Table, g: Table, lead: Args, tail: Args)
    requires OptionTable(g) && Agrees(p, g) && IsLeading(g, lead)
    ensures Scan(p, lead).Ok? ==> Scan(p, lead).value.positionals == []
    ensures Scan(p, lead + tail) == Then(Scan(p, lead), Scan(p, tail))
    decreases |lead|
  {
    if lead == [] {
      assert lead + tail == tail;
      assert Scan(p, tail).Ok? ==> [] + Scan(p, tail).value.options == Scan(p, tail).value.options;
    } else {
      var k := Taken(g, lead);
      var front, inner := lead[..k], lead[k..];
      ScanLeading(p, g, inner, tail);
      assert lead == front + inner && lead + tail == front + (inner + tail);
      if k == 1 {
        assert front == [lead[0]];
        OneToken(p, g, lead, inner);
        OneToken(p, g, lead, inner + tail);
        ThenAddOption((OptionName(lead[0]), InlineOr(p, lead[0])), Scan(p, inner), Scan(p, tail));
      } else {
        assert front == [lead[0], lead[1]];
        TwoTokens(p, g, lead, inner);
        TwoTokens(p, g, lead, inner + tail);
        ThenAddOption((OptionName(lead[0]), lead[1]), Scan(p, inner), Scan(p, tail));
      }
    }
  }

  lemma SliceTwice(a: Args, k: nat, d: nat)
    requires k <= d <= |a|
    ensures a[..d] == a[..k] + a[k..][..d - k]
  {
  }

  /** A "--" among the leading tokens is the value of an option, which then has none. */
  lemma {:induction false} ScanCutLeading(p: Table, g: Table, lead: Args)
    requires OptionTable(g) && Agrees(p, g) && IsLeading(g, lead) && DoubleDash(lead) < |lead|
    ensures Scan(p, lead[..DoubleDash(lead)]).Err?
    decreases |lead|
  {
    var k, d := Taken(g, lead), DoubleDash(lead);
    if d < k {
      assert d == 1 && lead[..1] == [lead[0]];
      TwoTokens(p, g, lead, []);
    } else {
      DashFurther(lead, k);
      ScanCutLeading(p, g, lead[k..]);
      SliceTwice(lead, k, d);
      FailureBehind(p, g, lead, lead[k..][..d - k]);
    }
  }

  lemma FailureBehind(p: Table, g: Table, lead: Args, cut: Args)
    requires OptionTable(g) && Agrees(p, g) && Taken(g, lead) > 0 && Scan(p, cut).Err?
    ensures Scan(p, lead[..Taken(g, lead)] + cut).Err?
  {
    if Taken(g, lead) == 1 {
      assert lead[..1] == [lead[0]];
      OneToken(p, g, lead, cut);
    } else {
      assert lead[..2] == [lead[0], lead[1]];
      TwoTokens(p, g, lead, cut);
    }
  }

  lemma {:induction false} DashFurther(a: Args, k: nat)
    requires k <= DoubleDash(a)
    ensures DoubleDash(a[k..]) == DoubleDash(a) - k
  {
    if k > 0 {
      DashFurther(a[1..], k - 1);
      assert a[1..][k - 1..] == a[k..];
    }
  }

  lemma {:induction false} DashBehind(a: Args, b: Args)
    requires DoubleDash(a) == |a|
    ensures DoubleDash(a + b) == |a| + DoubleDash(b)
  {
    if a == [] {
      assert a + b == b;
    } else {
      DashBehind(a[1..], b);
      assert (a + b)[0] == a[0] && (a + b)[1..] == a[1..] + b;
    }
  }

  lemma {:induction false} DashInside(a: Args, b: Args)
    requires DoubleDash(a) < |a|
    ensures DoubleDash(a + b) == DoubleDash(a)
  {
    if a[0] != "--" {
      DashInside(a[1..], b);
      assert (a + b)[0] == a[0] && (a + b)[1..] == a[1..] + b;
    }
  }

  /** For every command line and every parser table that agrees with the global one,
      parsing after hoisting gives the options, positionals and pass-through arguments,
      or the error, that parsing the original line gives. */
  lemma ParsingIgnoresHoisting(p: Table, g: Table, argv: Args)
    requires OptionTable(g) && Agrees(p, g)
    ensures ParseArguments(p, Hoisted(g, argv)) == ParseArguments(p, argv)
  {
    var rest := Rest(g, argv);
    HoistingIsABlockMove(g, argv);
    SegmentsSplit(rest);
    LeadIsLeading(g, argv);
    HeadHasNoDash(CommandSegments(rest));
    if DoubleDash(Lead(g, argv)) < |Lead(g, argv)| {
      BothFail(p, g, Lead(g, argv), CommandSegments(rest), AfterSegments(rest));
    } else {
      BothParse(p, g, Lead(g, argv), CommandSegments(rest), AfterSegments(rest));
    }
  }

  ghost predicate HoistingInvisible(p: Table, g: Table) {
    forall argv :: ParseArguments(p, Hoisted(g, argv)) == ParseArguments(p, argv)
  }

  /** The main result: hoisting is invisible to a parser on all command lines exactly when
      every global name the parser knows has the same kind for both. */
  lemma {:induction false} HoistingInvisibleExactly(p: Table, g: Table)
    requires OptionTable(g)
    ensures HoistingInvisible(p, g) <==> Agrees(p, g)
  {
    if Agrees(p, g) {
      forall argv ensures ParseArguments(p, Hoisted(g, argv)) == ParseArguments(p, argv) {
        ParsingIgnoresHoisting(p, g, argv);
      }
    } else {
      var name :| name in g.arity.Keys + g.negated && !SameKind(p, g, name);
      match (GlobalKind(g, name), Kind(p, name).value)
      case (Flag, TakesValue) => FlagReadAsValue(p, g, name, ["a"]);
      case (TakesValue, Flag) => ValueReadAsFlag(p, g, name, "a", "b");
      case _ =>
    }
  }

  lemma {:induction false} NameAlone(name: string)
    requires '=' !in name
    ensures IndexOfEq(name) == |name| && OptionName(name) == name && InlineValue(name) == None
  {
    if name != "" {
      NameAlone(name[1..]);
    }
  }

  /** A global flag that the parser gives a value swallows the first command word. */
  lemma {:induction false} FlagReadAsValue(p: Table, g: Table, name: string, words: Args)
    requires OptionTable(g) && (name in g.arity || name in g.negated)
    requires words != [] && forall i :: 0 <= i < |words| ==> !Dashed(words[i])
    requires GlobalKind(g, name) == Flag && Kind(p, name) == Some(TakesValue)
    ensures ParseArguments(p, Hoisted(g, [name] + words)).Err? && ParseArguments(p, [name] + words).Ok?
  {
    var argv := [name] + words;
    NameAlone(name);
    assert argv[1..] == words && argv[..1] == [name];
    NoLead(g, words);
    assert LeadingLength(g, argv) == 1;
    assert Hoisted(g, argv) == words + [name] by {
      assert [name] + [] == [name];
    }
    PlainArguments(p, argv);
    PlainArguments(p, words + [name]);
    ScanPositionals(p, words, [name]);
    WordsOnly(p, words[1..]);
    assert argv[2..] == words[1..];
  }

  lemma NoLead(g: Table, words: Args)
    requires forall i :: 0 <= i < |words| ==> !Dashed(words[i])
    ensures LeadingLength(g, words) == 0 && CommandSegments(words) == words && AfterSegments(words) == []
  {
    SegmentsOf(words, []);
    assert words + [] == words;
  }

  lemma OneWord(g: Table, word: string)
    requires !Dashed(word)
    ensures LeadingLength(g, [word]) == 0 && CommandSegments([word]) == [word]
  {
    assert CommandSegments([]) == [];
    assert [word][1..] == [];
  }

  /** A global option with a value that the parser takes for a flag leaves its value among the words. */
  lemma {:induction false} ValueReadAsFlag(p: Table, g: Table, name: string, value: string, word: string)
    requires OptionTable(g) && name in g.arity && word != value
    requires word != "" && !Dashed(word) && value != "" && !Dashed(value)
    requires g.arity[name] == TakesValue && Kind(p, name) == Some(Flag)
    ensures ParseArguments(p, Hoisted(g, [name, value, word])) != ParseArguments(p, [name, value, word])
  {
    var argv := [name, value, word];
    NameAlone(name);
    assert argv[2..] == [word] && argv[..2] == [name, value] && argv[1..] == [value, word];
    OneWord(g, word);
    assert LeadingLength(g, argv) == 2;
    var hoisted := [word, name, value];
    assert Hoisted(g, argv) == hoisted;
    PlainArguments(p, argv);
    PlainArguments(p, hoisted);
    FlagAmongWords(p, name, [], [value, word]);
    FlagAmongWords(p, name, [word], [value]);
    assert [] + ([name] + [value, word]) == argv && [word] + ([name] + [value]) == hoisted;
    assert ([] + [value, word])[0] != ([word] + [value])[0];
  }

  lemma {:induction false} FlagAmongWords(p: Table, name: string, before: Args, after: Args)
    requires IsOptionName(name) && Kind(p, name) == Some(Flag)
    requires forall i :: 0 <= i < |before| ==> !Dashed(before[i])
    requires forall i :: 0 <= i < |after| ==> !Dashed(after[i])
    ensures Scan(p, before + ([name] + after)) == Ok(Reading([(name, "")], before + after))
  {
    ScanPositionals(p, before, [name] + after);
    FlagThen(p, name, after);
    WordsOnly(p, after);
    assert [(name, "")] + [] == [(name, "")];
  }

  lemma WordsOnly(p: Table, words: Args)
    requires forall i :: 0 <= i < |words| ==> !Dashed(words[i])
    ensures Scan(p, words) == Ok(Reading([], words))
  {
    ScanPositionals(p, words, []);
    assert words + [] == words;
  }

  lemma {:induction false} FlagThen(p: Table, name: string, tail: Args)
    requires IsOptionName(name) && Kind(p, name) == Some(Flag)
    ensures Scan(p, [name] + tail) == AddOption((name, ""), Scan(p, tail))
  {
    NameAlone(name);
    assert ([name] + tail)[1..] == tail;
  }

  /** Without a "--" everything is scanned. */
  lemma PlainArguments(p: Table, argv: Args)
    requires forall i :: 0 <= i < |argv| ==> argv[i] != "--"
    ensures ParseArguments(p, argv) == WithPassThrough(Scan(p, argv), [])
  {
    assert DoubleDash(argv) == |argv|;
    assert argv[..|argv|] == argv;
  }

  // ----- the tables of commands

  function Names(t: Table): set<string> {
    t.arity.Keys + t.negated
  }

  /** The parser's table for a command: the global options, then the command's own, which
      replace a global one of the same name. */
  function Merged(g: Table, own: Table): Table {
    Table(g.arity + own.arity, (g.negated - own.arity.Keys) + own.negated)
  }

  /** Hoisting is invisible to a command exactly when none of its own names gives a global
      name another kind. */
  lemma {:induction false} CommandNoticesExactly(g: Table, own: Table)
    requires OptionTable(g) && own.arity.Keys !! own.negated
    ensures HoistingInvisible(Merged(g, own), g) <==>
            forall name :: name in Names(g) * Names(own) ==> GlobalKind(own, name) == GlobalKind(g, name)
  {
    var p := Merged(g, own);
    HoistingInvisibleExactly(p, g);
    forall name | name in Names(g)
      ensures SameKind(p, g, name) <==> (name in Names(own) ==> GlobalKind(own, name) == GlobalKind(g, name))
    {
      if name in own.negated {
        assert Kind(p, name) == Some(Flag) && GlobalKind(own, name) == Flag;
      }
    }
  }

  /** Two tables built from sets differ on a common name exactly when one's flags meet the other's values. */
  lemma KindsClash(f: set<string>, v: set<string>, n: set<string>, flags: set<string>, values: set<string>)
    requires f + n !! v && flags !! values
    ensures var g, own := TableOf(f, v, n), TableOf(flags, values, {});
            (forall name :: name in Names(g) * Names(own) ==> GlobalKind(own, name) == GlobalKind(g, name)) <==>
            flags !! v && values !! f + n
  {
    var g, own := TableOf(f, v, n), TableOf(flags, values, {});
    forall name | name in Names(g) * Names(own)
      ensures GlobalKind(own, name) == GlobalKind(g, name) <==> (name in values <==> name in v)
    {
    }
    if name :| name in flags * v {
      assert name in Names(g) * Names(own);
    }
    if name :| name in values * (f + n) {
      assert name in Names(g) * Names(own);
    }
  }

  /** The options of ssh, which repeats two global names and reuses -v for another flag. */
  const SSH_FLAGS: set<string> := {"--interactive", "-i", "--verbose", "-v", "--dry-run"}

  const SSH_VALUES: set<string> := {"--port", "-p", "--gateway", "-g", "--timeout", "-t"}

  /** The options of cvms resize, where -v stands for --vcpu and takes a value. */
  const RESIZE_FLAGS: set<string> := {"--interactive", "-i", "--yes", "-y", "--json"}

  const RESIZE_VALUES: set<string> :=
    {"--vcpu", "-v", "--memory", "-m", "--disk-size", "-d", "--allow-restart", "-r"}

  lemma GlobalNames()
    ensures forall name :: name in GLOBAL_FLAGS ==> IsOptionName(name)
    ensures forall name :: name in GLOBAL_VALUES ==> IsOptionName(name)
    ensures IsOptionName("--no-json")
  {
  }

  lemma GlobalSets()
    ensures GLOBAL_FLAGS + {"--no-json"} !! GLOBAL_VALUES && "--no-json" !in GLOBAL_FLAGS
  {
  }

  lemma GlobalIsOptionTable()
    ensures OptionTable(GLOBAL)
  {
    GlobalNames();
    GlobalSets();
  }

  lemma SshSets()
    ensures SSH_FLAGS !! SSH_VALUES && SSH_FLAGS !! GLOBAL_VALUES && SSH_VALUES !! GLOBAL_FLAGS + {"--no-json"}
  {
  }

  /** No command line of ssh is read differently because of hoisting. */
  lemma SshNeverNotices()
    ensures HoistingInvisible(Merged(GLOBAL, TableOf(SSH_FLAGS, SSH_VALUES, {})), GLOBAL)
  {
    GlobalIsOptionTable();
    GlobalSets();
    SshSets();
    KindsClash(GLOBAL_FLAGS, GLOBAL_VALUES, {"--no-json"}, SSH_FLAGS, SSH_VALUES);
    CommandNoticesExactly(GLOBAL, TableOf(SSH_FLAGS, SSH_VALUES, {}));
  }

  /** cvms resize does notice: -v in front of the command is a flag to the hoister, and once
      hoisted it lacks the value that the original order gives it. */
  lemma ResizeNotices()
    ensures var p, argv := Merged(GLOBAL, TableOf(RESIZE_FLAGS, RESIZE_VALUES, {})), ["-v", "cvms", "resize"];
            !HoistingInvisible(p, GLOBAL) &&
            ParseArguments(p, argv).Ok? && ParseArguments(p, Hoisted(GLOBAL, argv)).Err?
  {
    GlobalIsOptionTable();
    GlobalSets();
    ValueShadowsFlag(GLOBAL_FLAGS, GLOBAL_VALUES, {"--no-json"}, RESIZE_FLAGS, RESIZE_VALUES, "-v", ["cvms", "resize"]);
    assert ["-v"] + ["cvms", "resize"] == ["-v", "cvms", "resize"];
  }

  /** An own option with a value under the name of a global flag makes the difference. */
  lemma ValueShadowsFlag(f: set<string>, v: set<string>, n: set<string>, flags: set<string>, values: set<string>,
                         name: string, words: Args)
    requires OptionTable(TableOf(f, v, n)) && f !! v
    requires name in f && name in values && words != [] && forall i :: 0 <= i < |words| ==> !Dashed(words[i])
    ensures var g := TableOf(f, v, n);
            var p := Merged(g, TableOf(flags, values, {}));
            !HoistingInvisible(p, g) &&
            ParseArguments(p, [name] + words).Ok? && ParseArguments(p, Hoisted(g, [name] + words)).Err?
  {
    var g := TableOf(f, v, n);
    FlagReadAsValue(Merged(g, TableOf(flags, values, {})), g, name, words);
  }

  lemma {:induction false} BothFail(p: Table, g: Table, lead: Args, head: Args, tail: Args)
    requires OptionTable(g) && Agrees(p, g) && IsLeading(g, lead)
    requires DoubleDash(lead) < |lead| && DoubleDash(head) == |head|
    requires forall i :: 0 <= i < |head| ==> !Dashed(head[i])
    ensures ParseArguments(p, head + (lead + tail)) == ParseArguments(p, lead + (head + tail))
  {
    var d := DoubleDash(lead);
    DashInside(lead, head + tail);
    DashInside(lead, tail);
    DashBehind(head, lead + tail);
    ScanCutLeading(p, g, lead);
    CutFirst(lead, head, tail, d);
    ScanPositionals(p, head, lead[..d]);
  }

  lemma CutFirst(a: Args, b: Args, c: Args, d: nat)
    requires d <= |a|
    ensures (a + (b + c))[..d] == a[..d] && (b + (a + c))[..|b| + d] == b + a[..d]
  {
  }

  lemma {:induction false} BothParse(p: Table, g: Table, lead: Args, head: Args, tail: Args)
    requires OptionTable(g) && Agrees(p, g) && IsLeading(g, lead)
    requires DoubleDash(lead) == |lead| && DoubleDash(head) == |head|
    requires forall i :: 0 <= i < |head| ==> !Dashed(head[i])
    ensures ParseArguments(p, head + (lead + tail)) == ParseArguments(p, lead + (head + tail))
  {
    ParseOfBlocks(p, lead, head, tail);
    ParseOfBlocks(p, head, lead, tail);
    ScanSwapped(p, g, lead, head, tail[..DoubleDash(tail)]);
  }

  function WithPassThrough(r: Result<Reading, ScanError>, passThrough: Args): Result<Parsed, ScanError> {
    match r
    case Err(e) => Err(e)
    case Ok(x) => Ok(Parsed(x, passThrough))
  }

  function BehindDash(c: Args, d: nat): Args
    requires d <= |c|
  {
    if d == |c| then [] else c[d + 1..]
  }

  lemma DashOfBlocks(a: Args, b: Args, c: Args)
    requires DoubleDash(a) == |a| && DoubleDash(b) == |b|
    ensures DoubleDash(a + (b + c)) == |a| + |b| + DoubleDash(c)
  {
    DashBehind(b, c);
    DashBehind(a, b + c);
  }

  /** Only the last of three blocks holds a "--", so the split falls into it. */
  lemma ParseOfBlocks(p: Table, a: Args, b: Args, c: Args)
    requires DoubleDash(a) == |a| && DoubleDash(b) == |b|
    ensures var d := DoubleDash(c);
            ParseArguments(p, a + (b + c)) ==
            WithPassThrough(Scan(p, a + (b + c[..d])), BehindDash(c, d))
  {
    DashOfBlocks(a, b, c);
    CutAt(a, b, c, DoubleDash(c));
    ParseCut(p, a + (b + c), a + (b + c[..DoubleDash(c)]), BehindDash(c, DoubleDash(c)));
  }

  lemma ParseCut(p: Table, x: Args, front: Args, passThrough: Args)
    requires front == x[..DoubleDash(x)] && passThrough == BehindDash(x, DoubleDash(x))
    ensures ParseArguments(p, x) == WithPassThrough(Scan(p, front), passThrough)
  {
  }

  /** Cutting three blocks inside the last one. */
  lemma CutAt(a: Args, b: Args, c: Args, d: nat)
    requires d <= |c|
    ensures var x, n := a + (b + c), |a| + |b| + d;
            x[..n] == a + (b + c[..d]) && BehindDash(x, n) == BehindDash(c, d)
  {
  }

  lemma ScanSwapped(p: Table, g: Table, lead: Args, head: Args, back: Args)
    requires OptionTable(g) && Agrees(p, g) && IsLeading(g, lead)
    requires forall i :: 0 <= i < |head| ==> !Dashed(head[i])
    ensures Scan(p, head + (lead + back)) == Scan(p, lead + (head + back))
  {
    ScanPositionals(p, head, back);
    ScanPositionals(p, head, lead + back);
    ScanLeading(p, g, lead, head + back);
    ScanLeading(p, g, lead, back);
  }

  lemma HeadHasNoDash(head: Args)
    requires forall i :: 0 <= i < |head| ==> !Dashed(head[i])
    ensures DoubleDash(head) == |head|
  {
    assert Dashed("--");
  }
}
