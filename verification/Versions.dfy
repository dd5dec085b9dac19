/** Version strings and the two release scripts that bump them. */
module Versions {
  import opened Text
  import opened Decimal
  import KeyOrder

  // ----- the groups of the version pattern

  /** The texts the pattern captures: three numerals and an optional tag with its numeral. */
  datatype Groups = Groups(major: string, minor: string, patch: string, pre: Option<PreText>)

  datatype PreText = PreText(tag: string, number: string)

  predicate IsLower(c: char) {
    'a' <= c <= 'z'
  }

  predicate AllLower(s: string) {
    s != "" && forall i :: 0 <= i < |s| ==> IsLower(s[i])
  }

  predicate Digits(s: string) {
    s != "" && AllDigits(s)
  }

  predicate ValidGroups(g: Groups) {
    Digits(g.major) && Digits(g.minor) && Digits(g.patch) &&
    (g.pre.Some? ==> AllLower(g.pre.value.tag) && Digits(g.pre.value.number))
  }

  function PreSuffix(p: PreText): string {
    "-" + (p.tag + ("." + p.number))
  }

  /** Three numerals (the last with whatever follows it) joined by dots. */
  function Dotted(a: string, b: string, c: string): string {
    a + ("." + (b + ("." + c)))
  }

  lemma DottedThen(a: string, b: string, c: string, rest: string)
    ensures Dotted(a, b, c) + rest == Dotted(a, b, c + rest)
  {
    Associate(a, "." + (b + ("." + c)), rest);
    Associate(".", b + ("." + c), rest);
    Associate(b, "." + c, rest);
    Associate(".", c, rest);
  }

  function Suffix(g: Groups): string {
    if g.pre.Some? then PreSuffix(g.pre.value) else ""
  }

  function Base(g: Groups): string {
    Dotted(g.major, g.minor, g.patch)
  }

  function Spell(g: Groups): string {
    Base(g) + Suffix(g)
  }

  /** Which script's pattern: Python knows three tags only, and its `$` lets one newline follow. */
  datatype Dialect = JavaScript | Python

  predicate AtEnd(d: Dialect, s: string) {
    s == "" || (d.Python? && s == "\n")
  }

  predicate KnownTag(d: Dialect, tag: string) {
    d.JavaScript? || tag == "alpha" || tag == "beta" || tag == "rc"
  }

  function LowerSpan(s: string): (n: nat)
    ensures n <= |s| && (forall i :: 0 <= i < n ==> IsLower(s[i])) && (n < |s| ==> !IsLower(s[n]))
  {
    if s != "" && IsLower(s[0]) then 1 + LowerSpan(s[1..]) else 0
  }

  datatype Piece = Piece(text: string, rest: string)

  /** One or more digits, as many as there are. */
  function TakeDigits(s: string): Option<Piece> {
    var n := DigitSpan(s);
    if n == 0 then None else Some(Piece(s[..n], s[n..]))
  }

  function TakeChar(s: string, c: char): Option<string> {
    if s != "" && s[0] == c then Some(s[1..]) else None
  }

  /** Digits and the dot after them. */
  function TakePart(s: string): Option<Piece> {
    match TakeDigits(s)
    case None => None
    case Some(p) =>
      match TakeChar(p.rest, '.')
      case None => None
      case Some(rest) => Some(Piece(p.text, rest))
  }

  datatype Core = Core(major: string, minor: string, patch: string, rest: string)

  /** The three numerals in front and what follows them. */
  function TakeCore(s: string): Option<Core> {
    match TakePart(s)
    case None => None
    case Some(a) =>
      match TakePart(a.rest)
      case None => None
      case Some(b) =>
        match TakeDigits(b.rest)
        case None => None
        case Some(c) => Some(Core(a.text, b.text, c.text, c.rest))
  }

  /** One or more lower-case letters and the dot after them. */
  function TakeTag(s: string): Option<Piece> {
    var n := LowerSpan(s);
    if n == 0 then None
    else
      match TakeChar(s[n..], '.')
      case None => None
      case Some(rest) => Some(Piece(s[..n], rest))
  }

  function MatchPre(d: Dialect, s: string): Option<PreText> {
    match TakeChar(s, '-')
    case None => None
    case Some(t) =>
      match TakeTag(t)
      case None => None
      case Some(tag) =>
        match TakeDigits(tag.rest)
        case None => None
        case Some(p) => if KnownTag(d, tag.text) && AtEnd(d, p.rest) then Some(PreText(tag.text, p.text)) else None
  }

  /** The version pattern of both scripts. */
  function Match(d: Dialect, s: string): Option<Groups> {
    match TakeCore(s)
    case None => None
    case Some(c) =>
      if AtEnd(d, c.rest) then Some(Groups(c.major, c.minor, c.patch, None))
      else
        match MatchPre(d, c.rest)
        case None => None
        case Some(p) => Some(Groups(c.major, c.minor, c.patch, Some(p)))
  }

  lemma TakeDigitsOf(digits: string, rest: string)
    requires Digits(digits) && (rest == "" || !IsDigit(rest[0]))
    ensures TakeDigits(digits + rest) == Some(Piece(digits, rest))
  {
    SpanOf(digits, rest);
    assert (digits + rest)[|digits|..] == rest;
  }

  lemma TakePartOf(digits: string, rest: string)
    requires Digits(digits)
    ensures TakePart(digits + ("." + rest)) == Some(Piece(digits, rest))
  {
    TakeDigitsOf(digits, "." + rest);
    assert ("." + rest)[1..] == rest;
  }

  lemma {:induction false} LowerSpanOf(tag: string, rest: string)
    requires (forall i :: 0 <= i < |tag| ==> IsLower(tag[i])) && (rest == "" || !IsLower(rest[0]))
    ensures LowerSpan(tag + rest) == |tag|
  {
    if tag == "" {
      assert tag + rest == rest;
    } else {
      LowerSpanOf(tag[1..], rest);
      assert (tag + rest)[1..] == tag[1..] + rest;
    }
  }

  lemma TakeTagOf(tag: string, rest: string)
    requires AllLower(tag)
    ensures TakeTag(tag + ("." + rest)) == Some(Piece(tag, rest))
  {
    LowerSpanOf(tag, "." + rest);
    var s := tag + ("." + rest);
    assert s[|tag|..] == "." + rest && s[..|tag|] == tag;
    assert ("." + rest)[1..] == rest;
  }

  lemma MatchPreStep(d: Dialect, t: string, u: string, p: PreText, end: string)
    requires TakeTag(t) == Some(Piece(p.tag, u)) && TakeDigits(u) == Some(Piece(p.number, end))
    requires KnownTag(d, p.tag) && AtEnd(d, end)
    ensures MatchPre(d, "-" + t) == Some(p)
  {
    assert ("-" + t)[1..] == t;
  }

  lemma MatchPreOf(d: Dialect, p: PreText, end: string)
    requires AllLower(p.tag) && KnownTag(d, p.tag) && Digits(p.number) && AtEnd(d, end)
    ensures MatchPre(d, "-" + (p.tag + ("." + (p.number + end)))) == Some(p)
  {
    var u := p.number + end;
    TakeTagOf(p.tag, u);
    TakeDigitsOf(p.number, end);
    MatchPreStep(d, p.tag + ("." + u), u, p, end);
  }

  lemma SuffixThen(p: PreText, end: string)
    ensures PreSuffix(p) + end == "-" + (p.tag + ("." + (p.number + end)))
  {
    Associate("-", p.tag + ("." + p.number), end);
    Associate(p.tag, "." + p.number, end);
    Associate(".", p.number, end);
  }

  lemma TakeCoreOf(a: string, b: string, c: string, rest: string)
    requires Digits(a) && Digits(b) && Digits(c) && (rest == "" || !IsDigit(rest[0]))
    ensures TakeCore(Dotted(a, b, c + rest)) == Some(Core(a, b, c, rest))
  {
    TakePartOf(a, b + ("." + (c + rest)));
    TakePartOf(b, c + rest);
    TakeDigitsOf(c, rest);
  }

  /** The pattern accepts every well-formed text, with what may follow it, and captures its groups. */
  lemma MatchText(d: Dialect, g: Groups, end: string)
    requires ValidGroups(g) && AtEnd(d, end) && (g.pre.Some? ==> KnownTag(d, g.pre.value.tag))
    ensures Match(d, Spell(g) + end) == Some(g)
  {
    Associate(Base(g), Suffix(g), end);
    DottedThen(g.major, g.minor, g.patch, Suffix(g) + end);
    if g.pre.Some? {
      MatchPreOf(d, g.pre.value, end);
      SuffixThen(g.pre.value, end);
      assert (Suffix(g) + end)[0] == '-';
    }
    TakeCoreOf(g.major, g.minor, g.patch, Suffix(g) + end);
  }

  lemma TakenDigits(s: string)
    requires TakeDigits(s).Some?
    ensures var p := TakeDigits(s).value; Digits(p.text) && p.text + p.rest == s
  {
  }

  lemma TakenPart(s: string)
    requires TakePart(s).Some?
    ensures var p := TakePart(s).value; Digits(p.text) && p.text + ("." + p.rest) == s
  {
    TakenDigits(s);
  }

  lemma TakenTag(s: string)
    requires TakeTag(s).Some?
    ensures var p := TakeTag(s).value; AllLower(p.text) && p.text + ("." + p.rest) == s
  {
    var n := LowerSpan(s);
    assert s[n..] == "." + s[n..][1..];
  }

  lemma TakenCore(s: string)
    requires TakeCore(s).Some?
    ensures var c := TakeCore(s).value;
            Digits(c.major) && Digits(c.minor) && Digits(c.patch) &&
            s == Dotted(c.major, c.minor, c.patch) + c.rest
  {
    TakenPart(s);
    var a := TakePart(s).value;
    TakenPart(a.rest);
    var b := TakePart(a.rest).value;
    TakenDigits(b.rest);
    var c := TakeDigits(b.rest).value;
    DottedThen(a.text, b.text, c.text, c.rest);
  }

  lemma TakenChar(s: string, c: char)
    requires TakeChar(s, c).Some?
    ensures s == [c] + TakeChar(s, c).value
  {
  }

  lemma MatchedPre(d: Dialect, s: string) returns (end: string)
    requires MatchPre(d, s).Some?
    ensures var p := MatchPre(d, s).value;
            AllLower(p.tag) && KnownTag(d, p.tag) && Digits(p.number) &&
            AtEnd(d, end) && s == PreSuffix(p) + end
  {
    TakenChar(s, '-');
    var t := TakeChar(s, '-').value;
    TakenTag(t);
    var tag := TakeTag(t).value;
    TakenDigits(tag.rest);
    end := TakeDigits(tag.rest).value.rest;
    SuffixThen(PreText(tag.text, TakeDigits(tag.rest).value.text), end);
  }

  /** A match determines the text up to the newline Python tolerates: the groups lose nothing. */
  lemma MatchedText(d: Dialect, s: string) returns (end: string)
    ensures Match(d, s).Some? ==>
              var g := Match(d, s).value;
              ValidGroups(g) && (g.pre.Some? ==> KnownTag(d, g.pre.value.tag)) &&
              AtEnd(d, end) && s == Spell(g) + end
  {
    end := "";
    if Match(d, s).Some? {
      TakenCore(s);
      var c := TakeCore(s).value;
      var g := Match(d, s).value;
      if g.pre.None? {
        end := c.rest;
      } else {
        end := MatchedPre(d, c.rest);
        Associate(Base(g), Suffix(g), end);
      }
    }
  }

  /** A well-formed text ends in a digit. */
  lemma LastOfText(g: Groups)
    requires ValidGroups(g)
    ensures Spell(g) != "" && IsDigit(Spell(g)[|Spell(g)| - 1])
  {
    if g.pre.Some? {
      LastOfSuffix(g.pre.value);
    } else {
      assert Spell(g) == Base(g);
    }
  }

  lemma LastOfSuffix(p: PreText)
    requires Digits(p.number)
    ensures IsDigit(PreSuffix(p)[|PreSuffix(p)| - 1])
  {
    assert PreSuffix(p)[|PreSuffix(p)| - 1] == p.number[|p.number| - 1];
  }

  // ----- versions as numbers

  datatype Pre = Pre(tag: string, number: nat)

  datatype Version = Version(major: nat, minor: nat, patch: nat, pre: Option<Pre>)

  function VersionOf(g: Groups): Version {
    Version(Number(g.major), Number(g.minor), Number(g.patch),
            if g.pre.Some? then Some(Pre(g.pre.value.tag, Number(g.pre.value.number))) else None)
  }

  function GroupsOf(v: Version): Groups {
    Groups(Numeral(v.major), Numeral(v.minor), Numeral(v.patch),
           if v.pre.Some? then Some(PreText(v.pre.value.tag, Numeral(v.pre.value.number))) else None)
  }

  function ParseVersion(d: Dialect, s: string): Option<Version> {
    match Match(d, s)
    case None => None
    case Some(g) => Some(VersionOf(g))
  }

  function Print(v: Version): string {
    Spell(GroupsOf(v))
  }

  predicate ValidVersion(d: Dialect, v: Version) {
    v.pre.Some? ==> AllLower(v.pre.value.tag) && KnownTag(d, v.pre.value.tag)
  }

  predicate CanonicalGroups(g: Groups) {
    Canonical(g.major) && Canonical(g.minor) && Canonical(g.patch) &&
    (g.pre.Some? ==> Canonical(g.pre.value.number))
  }

  lemma GroupsOfVersion(v: Version)
    ensures CanonicalGroups(GroupsOf(v)) && VersionOf(GroupsOf(v)) == v
  {
    NumberOfNumeral(v.major);
    NumberOfNumeral(v.minor);
    NumberOfNumeral(v.patch);
    if v.pre.Some? {
      NumberOfNumeral(v.pre.value.number);
    }
  }

  lemma VersionOfGroups(g: Groups)
    requires CanonicalGroups(g)
    ensures GroupsOf(VersionOf(g)) == g
  {
    NumeralOfNumber(g.major);
    NumeralOfNumber(g.minor);
    NumeralOfNumber(g.patch);
    if g.pre.Some? {
      NumeralOfNumber(g.pre.value.number);
    }
  }

  /** Spelling loses nothing: the pattern reads the groups back. */
  lemma MatchSpell(d: Dialect, g: Groups)
    requires ValidGroups(g) && (g.pre.Some? ==> KnownTag(d, g.pre.value.tag))
    ensures Match(d, Spell(g)) == Some(g)
  {
    MatchText(d, g, "");
    assert Spell(g) + "" == Spell(g);
  }

  lemma ParsePrint(d: Dialect, v: Version)
    requires ValidVersion(d, v)
    ensures ParseVersion(d, Print(v)) == Some(v)
  {
    GroupsOfVersion(v);
    MatchSpell(d, GroupsOf(v));
  }

  lemma ParsedIsValid(d: Dialect, s: string)
    requires ParseVersion(d, s).Some?
    ensures ValidVersion(d, ParseVersion(d, s).value)
  {
    var end := MatchedText(d, s);
  }

  lemma NewlineAtEnd(d: Dialect, text: string, end: string, s: string)
    requires AtEnd(d, end) && s == text + end
    requires text != "" && IsDigit(text[|text| - 1])
    ensures s == text <==> !EndsInNewline(s)
  {
    if end == "" {
      assert s == text;
    }
  }

  /** Printing undoes parsing exactly for texts without superfluous zeros or a final newline. */
  lemma PrintParse(d: Dialect, s: string)
    ensures Match(d, s).Some? ==>
              (Print(VersionOf(Match(d, s).value)) == s <==> CanonicalGroups(Match(d, s).value) && !EndsInNewline(s))
  {
    var end := MatchedText(d, s);
    if Match(d, s).Some? {
      GroupsRoundTrip(d, Match(d, s).value, end);
    }
  }

  predicate EndsInNewline(s: string) {
    s != "" && s[|s| - 1] == '\n'
  }

  lemma GroupsRoundTrip(d: Dialect, g: Groups, end: string)
    requires ValidGroups(g) && (g.pre.Some? ==> KnownTag(d, g.pre.value.tag)) && AtEnd(d, end)
    ensures var s := Spell(g) + end;
            Print(VersionOf(g)) == s <==> CanonicalGroups(g) && !EndsInNewline(s)
  {
    var s := Spell(g) + end;
    LastOfText(g);
    NewlineAtEnd(d, Spell(g), end, s);
    MatchText(d, g, end);
    var printed := GroupsOf(VersionOf(g));
    GroupsOfVersion(VersionOf(g));
    if CanonicalGroups(g) {
      VersionOfGroups(g);
    }
    if Spell(printed) == s {
      MatchSpell(d, printed);
    }
  }

  // ----- bumping

  datatype ReleaseType = Major | Minor | Patch

  function Raised(v: Version, t: ReleaseType): Version {
    match t
    case Major => Version(v.major + 1, 0, 0, None)
    case Minor => Version(v.major, v.minor + 1, 0, None)
    case Patch => Version(v.major, v.minor, v.patch + 1, None)
  }

  function Bumped(v: Version, t: ReleaseType, tag: string): Version {
    if tag != "" then
      if v.pre.Some? && v.pre.value.tag == tag then v.(pre := Some(Pre(tag, v.pre.value.number + 1)))
      else Raised(v, t).(pre := Some(Pre(tag, 1)))
    else if v.pre.Some? then v.(pre := None)
    else Raised(v, t)
  }

  /** The bump itself, on the parsed version: locals updated in a switch. */
  method BumpParsed(v: Version, t: ReleaseType, tag: string) returns (r: Version)
    ensures r == Bumped(v, t, tag)
  {
    if tag != "" && v.pre.Some? && v.pre.value.tag == tag {
      return Version(v.major, v.minor, v.patch, Some(Pre(tag, v.pre.value.number + 1)));
    }
    if tag == "" && v.pre.Some? {
      return Version(v.major, v.minor, v.patch, None);
    }
    var major, minor, patch := v.major, v.minor, v.patch;
    match t {
      case Major =>
        major := major + 1;
        minor := 0;
        patch := 0;
      case Minor =>
        minor := minor + 1;
        patch := 0;
      case Patch =>
        patch := patch + 1;
    }
    return Version(major, minor, patch, if tag == "" then None else Some(Pre(tag, 1)));
  }

  /** The text written for a text the pattern accepts. */
  function BumpedText(d: Dialect, version: string, t: ReleaseType, tag: string): Option<string> {
    match ParseVersion(d, version)
    case None => None
    case Some(v) => Some(Print(Bumped(v, t, tag)))
  }

  /** bumpVersion: it fails on the texts the pattern rejects; what it writes for the others
      is read back as the bumped version. */
  method BumpVersion(d: Dialect, version: string, t: ReleaseType, tag: string) returns (r: Option<string>)
    requires tag == "" || (AllLower(tag) && KnownTag(d, tag))
    ensures r == BumpedText(d, version, t, tag)
    ensures r.None? <==> ParseVersion(d, version).None?
    ensures r.Some? ==> ParseVersion(d, r.value) == Some(Bumped(ParseVersion(d, version).value, t, tag))
  {
    var parsed := ParseVersion(d, version);
    if parsed.None? {
      return None;
    }
    var bumped := BumpParsed(parsed.value, t, tag);
    ParsedIsValid(d, version);
    ParsePrint(d, bumped);
    return Some(Print(bumped));
  }

  /** Precedence as in section 11 of Semantic Versioning 2.0.0: numbers first, a
      pre-release below its release, tags in ASCII order, then their numbers. */
  predicate Precedes(a: Version, b: Version) {
    if a.major != b.major then a.major < b.major
    else if a.minor != b.minor then a.minor < b.minor
    else if a.patch != b.patch then a.patch < b.patch
    else PrePrecedes(a.pre, b.pre)
  }

  predicate PrePrecedes(a: Option<Pre>, b: Option<Pre>) {
    match (a, b)
    case (None, _) => false
    case (Some(_), None) => true
    case (Some(x), Some(y)) => if x.tag == y.tag then x.number < y.number else KeyOrder.LexLess(false, x.tag, y.tag)
  }

  lemma PrecedesIsStrictOrder(a: Version, b: Version, c: Version)
    ensures !Precedes(a, a)
    ensures Precedes(a, b) && Precedes(b, c) ==> Precedes(a, c)
    ensures a == b || Precedes(a, b) || Precedes(b, a)
  {
    if a.pre.Some? && b.pre.Some? {
      KeyOrder.LexTotal(false, a.pre.value.tag, b.pre.value.tag);
      if c.pre.Some? {
        var x, y, z := a.pre.value.tag, b.pre.value.tag, c.pre.value.tag;
        if KeyOrder.LexLess(false, x, y) && KeyOrder.LexLess(false, y, z) {
          KeyOrder.LexTransitive(false, x, y, z);
        }
        KeyOrder.LexTotal(false, a.pre.value.tag, c.pre.value.tag);
        KeyOrder.LexTotal(false, b.pre.value.tag, c.pre.value.tag);
      }
    }
  }

  /** Every bump, of whatever type and tag, strictly increases precedence. */
  lemma BumpIncreases(v: Version, t: ReleaseType, tag: string)
    ensures Precedes(v, Bumped(v, t, tag))
  {
  }

  datatype Release = Release(kind: ReleaseType, tag: string, skipped: nat)

  /** One release: a bump, and for pre-releases any number of taken numbers skipped. */
  function Released(v: Version, r: Release): Version {
    var b := Bumped(v, r.kind, r.tag);
    if b.pre.Some? then b.(pre := Some(b.pre.value.(number := b.pre.value.number + r.skipped))) else b
  }

  function History(v: Version, rs: seq<Release>): Version {
    if rs == [] then v else Released(History(v, rs[..|rs| - 1]), rs[|rs| - 1])
  }

  /** No chain of releases ever comes back to a version it has been at. */
  lemma {:induction false} HistoryIncreases(v: Version, rs: seq<Release>, i: nat)
    requires i < |rs|
    ensures Precedes(History(v, rs[..i]), History(v, rs))
  {
    var n := |rs| - 1;
    var last := History(v, rs[..n]);
    BumpIncreases(last, rs[n].kind, rs[n].tag);
    PrecedesIsStrictOrder(last, Bumped(last, rs[n].kind, rs[n].tag), Released(last, rs[n]));
    if i < n {
      HistoryIncreases(v, rs[..n], i);
      assert rs[..n][..i] == rs[..i];
      PrecedesIsStrictOrder(History(v, rs[..i]), last, Released(last, rs[n]));
    }
  }

  const MAX_ATTEMPTS: nat := 10

  function Candidate(v: Version, tag: string, number: nat): Version {
    Version(v.major, v.minor, v.patch, Some(Pre(tag, number)))
  }

  /** The first free pre-release number among ten, starting at the one asked for (0 counts as 1). */
  method FindNextAvailable(taken: string -> bool, parsed: Version, tag: string) returns (r: Option<Version>)
    ensures var start := if parsed.pre.Some? && parsed.pre.value.number != 0 then parsed.pre.value.number else 1;
            match r
            case Some(v) =>
              v.pre.Some? && v == Candidate(parsed, tag, v.pre.value.number) &&
              start <= v.pre.value.number < start + MAX_ATTEMPTS && !taken(Print(v)) &&
              (forall n :: start <= n < v.pre.value.number ==> taken(Print(Candidate(parsed, tag, n))))
            case None => forall n :: start <= n < start + MAX_ATTEMPTS ==> taken(Print(Candidate(parsed, tag, n)))
  {
    var start := if parsed.pre.Some? && parsed.pre.value.number != 0 then parsed.pre.value.number else 1;
    var prereleaseVersion := start;
    for attempt := 0 to MAX_ATTEMPTS
      invariant prereleaseVersion == start + attempt
      invariant forall n :: start <= n < prereleaseVersion ==> taken(Print(Candidate(parsed, tag, n)))
    {
      var candidate := Candidate(parsed, tag, prereleaseVersion);
      if !taken(Print(candidate)) {
        return Some(candidate);
      }
      prereleaseVersion := prereleaseVersion + 1;
    }
    return None;
  }

  lemma SkippedRelease(v: Version, t: ReleaseType, tag: string, found: Version)
    requires tag != "" && found.pre.Some?
    requires found == Candidate(Bumped(v, t, tag), tag, found.pre.value.number)
    requires Bumped(v, t, tag).pre.value.number <= found.pre.value.number
    ensures Precedes(v, found)
    ensures exists k :: found == Released(v, Release(t, tag, k))
  {
    var bumped := Bumped(v, t, tag);
    BumpIncreases(v, t, tag);
    PrecedesIsStrictOrder(v, bumped, found);
    var k := found.pre.value.number - bumped.pre.value.number;
    assert found == Released(v, Release(t, tag, k));
  }

  /** The main function of the script: bump, then make sure the version is free. What it
      releases is free and comes after the old version; a failure means ten pre-release
      numbers (or the one stable version) are taken. */
  method MakeRelease(taken: string -> bool, current: Version, t: ReleaseType, tag: string) returns (r: Option<Version>)
    requires ValidVersion(JavaScript, current) && (tag == "" || AllLower(tag))
    ensures r.Some? ==> !taken(Print(r.value)) && Precedes(current, r.value)
    ensures r.Some? ==> exists k :: r.value == Released(current, Release(t, tag, k))
    ensures r.None? ==> taken(Print(Bumped(current, t, tag)))
    ensures r.None? && tag != "" ==>
              var bumped := Bumped(current, t, tag);
              forall n :: bumped.pre.value.number <= n < bumped.pre.value.number + MAX_ATTEMPTS ==>
                taken(Print(Candidate(bumped, tag, n)))
  {
    var bumped := Bumped(current, t, tag);
    if !taken(Print(bumped)) {
      BumpIncreases(current, t, tag);
      assert Released(current, Release(t, tag, 0)) == bumped;
      return Some(bumped);
    }
    if tag == "" {
      return None;
    }
    ParsePrint(JavaScript, bumped);
    var reparsed := ParseVersion(JavaScript, Print(bumped)).value;
    r := FindNextAvailable(taken, reparsed, tag);
    if r.Some? {
      SkippedRelease(current, t, tag, r.value);
    }
  }

  // ----- PEP 440

  function ShortTag(tag: string): string {
    if tag == "alpha" then "a" else if tag == "beta" then "b" else "rc"
  }

  function LongTag(short: string): string {
    if short == "a" then "alpha" else if short == "b" then "beta" else "rc"
  }

  function ToPep440(version: string): Option<string> {
    match Match(Python, version)
    case None => None
    case Some(g) =>
      if g.pre.None? then Some(Base(g)) else Some(Base(g) + (ShortTag(g.pre.value.tag) + g.pre.value.number))
  }

  predicate IsShort(short: string) {
    short == "a" || short == "b" || short == "rc"
  }

  datatype PepText = PepText(short: string, number: string)

  /** The short tag and the numeral that end a PEP 440 pre-release. */
  function MatchShort(s: string): Option<PepText> {
    var n := LowerSpan(s);
    match TakeDigits(s[n..])
    case None => None
    case Some(number) =>
      if IsShort(s[..n]) && AtEnd(Python, number.rest) then Some(PepText(s[..n], number.text)) else None
  }

  /** Texts that do not match the pattern come back unchanged. */
  function FromPep440(version: string): string {
    match TakeCore(version)
    case None => version
    case Some(c) =>
      match MatchShort(c.rest)
      case None => version
      case Some(p) => Dotted(c.major, c.minor, c.patch) + PreSuffix(PreText(LongTag(p.short), p.number))
  }

  lemma MatchShortOf(short: string, number: string)
    requires IsShort(short) && AllLower(short) && Digits(number)
    ensures MatchShort(short + number) == Some(PepText(short, number))
  {
    LowerSpanOf(short, number);
    var s := short + number;
    assert s[..|short|] == short && s[|short|..] == number;
    assert number + "" == number;
    TakeDigitsOf(number, "");
  }

  lemma TagsComeBack(tag: string)
    requires KnownTag(Python, tag)
    ensures LongTag(ShortTag(tag)) == tag && IsShort(ShortTag(tag)) && AllLower(ShortTag(tag))
  {
    assert |"b"| == 1 && |"rc"| == 2;
  }

  /** What the tool writes for a pre-release is read back as the version it was. */
  lemma FromPepOfPre(g: Groups)
    requires ValidGroups(g) && g.pre.Some? && KnownTag(Python, g.pre.value.tag)
    ensures FromPep440(Base(g) + (ShortTag(g.pre.value.tag) + g.pre.value.number)) == Spell(g)
  {
    var tag, number := g.pre.value.tag, g.pre.value.number;
    TagsComeBack(tag);
    MatchShortOf(ShortTag(tag), number);
    DottedThen(g.major, g.minor, g.patch, ShortTag(tag) + number);
    TakeCoreOf(g.major, g.minor, g.patch, ShortTag(tag) + number);
  }

  lemma FromPepOfFinal(g: Groups)
    requires ValidGroups(g) && g.pre.None?
    ensures FromPep440(Base(g)) == Spell(g)
  {
    TakeCoreOf(g.major, g.minor, g.patch, "");
    assert g.patch + "" == g.patch;
  }

  /** Translating to PEP 440 and back gives the version again, exactly when it has no final newline. */
  lemma PepRoundTrip(s: string)
    ensures ToPep440(s).Some? ==> (FromPep440(ToPep440(s).value) == s <==> !EndsInNewline(s))
  {
    var end := MatchedText(Python, s);
    if ToPep440(s).Some? {
      var g := Match(Python, s).value;
      if g.pre.Some? {
        FromPepOfPre(g);
      } else {
        FromPepOfFinal(g);
      }
      LastOfText(g);
      NewlineAtEnd(Python, Spell(g), end, s);
    }
  }

  lemma NoMatch(s: string, c: Core)
    requires TakeCore(s) == Some(c) && c.rest != "" && IsLower(c.rest[0])
    ensures Match(Python, s).None?
  {
  }

  lemma ShortIsNoMatch(g: Groups)
    requires ValidGroups(g) && g.pre.Some? && KnownTag(Python, g.pre.value.tag)
    ensures Match(Python, Base(g) + (ShortTag(g.pre.value.tag) + g.pre.value.number)).None?
  {
    TagsComeBack(g.pre.value.tag);
    LowerStart(ShortTag(g.pre.value.tag), g.pre.value.number);
    var rest := ShortTag(g.pre.value.tag) + g.pre.value.number;
    DottedThen(g.major, g.minor, g.patch, rest);
    TakeCoreOf(g.major, g.minor, g.patch, rest);
    NoMatch(Base(g) + rest, Core(g.major, g.minor, g.patch, rest));
  }

  lemma LowerStart(tag: string, rest: string)
    requires AllLower(tag)
    ensures tag + rest != "" && IsLower((tag + rest)[0])
  {
  }

  /** The existence check translates a second time, which fails for every pre-release:
      only final releases survive it. */
  lemma TranslatingTwice(s: string)
    ensures ToPep440(s).Some? ==> (ToPep440(ToPep440(s).value).Some? <==> Match(Python, s).value.pre.None?)
  {
    var end := MatchedText(Python, s);
    if ToPep440(s).Some? {
      var g := Match(Python, s).value;
      if g.pre.Some? {
        ShortIsNoMatch(g);
      } else {
        MatchSpell(Python, g);
        assert Spell(g) == Base(g);
      }
    }
  }

  /** A version as PEP 440 reads it: the release numbers, the phase (a, b, rc or final) and its number. */
  datatype PepVersion = PepVersion(major: nat, minor: nat, patch: nat, phase: Phase, number: nat)

  datatype Phase = PhaseA | PhaseB | PhaseRc | Final

  function PhaseRank(p: Phase): nat {
    match p
    case PhaseA => 0
    case PhaseB => 1
    case PhaseRc => 2
    case Final => 3
  }

  function PhaseOf(short: string): Phase {
    if short == "a" then PhaseA else if short == "b" then PhaseB else PhaseRc
  }

  /** Reading a PEP 440 text of three release numbers and perhaps a pre-release. */
  function ReadPep440(s: string): Option<PepVersion> {
    match TakeCore(s)
    case None => None
    case Some(c) =>
      if c.rest == "" then Some(PepVersion(Number(c.major), Number(c.minor), Number(c.patch), Final, 0))
      else
        match MatchShort(c.rest)
        case None => None
        case Some(p) =>
          Some(PepVersion(Number(c.major), Number(c.minor), Number(c.patch), PhaseOf(p.short), Number(p.number)))
  }

  /** PEP 440 order: release numbers, then the phase, then its number. */
  predicate PepBefore(a: PepVersion, b: PepVersion) {
    if a.major != b.major then a.major < b.major
    else if a.minor != b.minor then a.minor < b.minor
    else if a.patch != b.patch then a.patch < b.patch
    else if a.phase != b.phase then PhaseRank(a.phase) < PhaseRank(b.phase)
    else a.number < b.number
  }

  predicate PepTextBefore(s: string, t: string) {
    ReadPep440(s).Some? && ReadPep440(t).Some? && PepBefore(ReadPep440(s).value, ReadPep440(t).value)
  }

  function PepOf(v: Version): PepVersion {
    if v.pre.None? then PepVersion(v.major, v.minor, v.patch, Final, 0)
    else PepVersion(v.major, v.minor, v.patch, PhaseOf(ShortTag(v.pre.value.tag)), v.pre.value.number)
  }

  lemma ReadPepOfPre(g: Groups)
    requires ValidGroups(g) && g.pre.Some? && KnownTag(Python, g.pre.value.tag)
    ensures ReadPep440(Base(g) + (ShortTag(g.pre.value.tag) + g.pre.value.number)) == Some(PepOf(VersionOf(g)))
  {
    var short, number := ShortTag(g.pre.value.tag), g.pre.value.number;
    TagsComeBack(g.pre.value.tag);
    MatchShortOf(short, number);
    LowerStart(short, number);
    DottedThen(g.major, g.minor, g.patch, short + number);
    TakeCoreOf(g.major, g.minor, g.patch, short + number);
  }

  lemma ReadPepOfFinal(g: Groups)
    requires ValidGroups(g) && g.pre.None?
    ensures ReadPep440(Base(g)) == Some(PepOf(VersionOf(g)))
  {
    TakeCoreOf(g.major, g.minor, g.patch, "");
    assert g.patch + "" == g.patch;
  }

  /** What the tool writes is a PEP 440 text for the version it was given. */
  lemma ReadTranslated(s: string)
    ensures ToPep440(s).Some? ==>
              ReadPep440(ToPep440(s).value) == Some(PepOf(VersionOf(Match(Python, s).value))) &&
              ValidVersion(Python, VersionOf(Match(Python, s).value))
  {
    var end := MatchedText(Python, s);
    if ToPep440(s).Some? {
      var g := Match(Python, s).value;
      if g.pre.Some? {
        ReadPepOfPre(g);
      } else {
        ReadPepOfFinal(g);
      }
    }
  }

  lemma TagOrder()
    ensures KeyOrder.LexLess(false, "alpha", "beta") && KeyOrder.LexLess(false, "beta", "rc") &&
            KeyOrder.LexLess(false, "alpha", "rc")
    ensures PhaseOf(ShortTag("alpha")) == PhaseA && PhaseOf(ShortTag("beta")) == PhaseB
    ensures PhaseOf(ShortTag("rc")) == PhaseRc
  {
    assert "alpha"[0] == 'a' && "beta"[0] == 'b' && "rc"[0] == 'r';
    assert |"rc"| == 2 && |"a"| == 1 && |"b"| == 1;
  }

  /** The three tags come in the same order in both schemes. */
  lemma TagsAgree(a: Version, b: Version)
    requires ValidVersion(Python, a) && ValidVersion(Python, b)
    ensures Precedes(a, b) <==> PepBefore(PepOf(a), PepOf(b))
  {
    TagOrder();
    KeyOrder.LexTotal(false, "alpha", "beta");
    KeyOrder.LexTotal(false, "alpha", "rc");
    KeyOrder.LexTotal(false, "beta", "rc");
    assert |"rc"| == 2 && |"alpha"| == 5 && |"beta"| == 4;
  }

  /** The translation is monotone both ways: the texts it writes are ordered by PEP 440
      as the versions are by precedence. */
  lemma PepOrderAgrees(s: string, t: string)
    ensures ToPep440(s).Some? && ToPep440(t).Some? ==>
              (Precedes(VersionOf(Match(Python, s).value), VersionOf(Match(Python, t).value))
               <==> PepTextBefore(ToPep440(s).value, ToPep440(t).value))
  {
    ReadTranslated(s);
    ReadTranslated(t);
    if ToPep440(s).Some? && ToPep440(t).Some? {
      TagsAgree(VersionOf(Match(Python, s).value), VersionOf(Match(Python, t).value));
    }
  }
}
