/** Host names for virtual machines: the validity rule and the pipeline that turns any text into a name. */
module Hostname {
  import opened Text

  // ----- validity

  predicate IsLower(c: char) {
    'a' <= c <= 'z'
  }

  predicate IsUpper(c: char) {
    'A' <= c <= 'Z'
  }

  predicate IsAlnum(c: char) {
    IsLower(c) || IsUpper(c) || IsDigit(c)
  }

  predicate IsHyphen(c: char) {
    c == '-'
  }

  predicate NoDoubleHyphen(s: string) {
    forall i :: 0 < i < |s| ==> !(s[i - 1] == '-' && s[i] == '-')
  }

  predicate HostnameChars(s: string) {
    forall i :: 0 <= i < |s| ==> IsAlnum(s[i]) || IsHyphen(s[i])
  }

  /** A letter in front, letters, digits and single hyphens, no hyphen at the end, 5 to 63 characters. */
  predicate IsValidHostname(s: string) {
    5 <= |s| <= 63 && (IsLower(s[0]) || IsUpper(s[0])) && HostnameChars(s) && NoDoubleHyphen(s) && s[|s| - 1] != '-'
  }

  // ----- the pipeline

  /** A hyphen between a lower-case and an upper-case letter. */
  function CamelSplit(s: string): string {
    if |s| < 2 then s
    else if IsLower(s[0]) && IsUpper(s[1]) then [s[0], '-', s[1]] + CamelSplit(s[2..])
    else [s[0]] + CamelSplit(s[1..])
  }

  predicate IsUnderscore(c: char) {
    c == '_'
  }

  /** What the second pattern replaces: everything but letters, digits, white space and hyphens. */
  predicate IsSymbol(c: char) {
    !IsAlnum(c) && !IsSpace(c) && !IsHyphen(c)
  }

  function ReplaceEach(s: string, p: char -> bool): string {
    if s == "" then "" else [if p(s[0]) then '-' else s[0]] + ReplaceEach(s[1..], p)
  }

  /** Every maximal run of the class becomes one hyphen, written where the run ends. */
  function ReplaceRuns(s: string, p: char -> bool): string {
    if s == "" then ""
    else if p(s[0]) && |s| > 1 && p(s[1]) then ReplaceRuns(s[1..], p)
    else [if p(s[0]) then '-' else s[0]] + ReplaceRuns(s[1..], p)
  }

  function StripFront(s: string): string {
    if s != "" && s[0] == '-' then StripFront(s[1..]) else s
  }

  function StripBack(s: string): string {
    if s != "" && s[|s| - 1] == '-' then StripBack(s[..|s| - 1]) else s
  }

  /** Steps 1 to 3 of the conversion after lower-casing. */
  function Clean(s: string): string {
    var plain := ReplaceEach(ReplaceEach(s, IsUnderscore), IsSymbol);
    StripBack(StripFront(ReplaceRuns(ReplaceRuns(plain, IsSpace), IsHyphen)))
  }

  const PREFIX := "dstack-app-"

  datatype Outcome = Name(name: string) | Fallback(reason: Reason)

  /** Which of the three exits to a generated name was taken. */
  datatype Reason = NothingLeft | NothingAfterTruncation | LastResort

  function Prefixed(cleaned: string): string
    requires cleaned != ""
  {
    var lettered := if IsDigit(cleaned[0]) then PREFIX + cleaned else cleaned;
    if |lettered| < 5 then PREFIX + lettered else lettered
  }

  function Truncated(s: string): string {
    StripBack(if |s| > 63 then s[..63] else s)
  }

  /** convertToHostname; `lower` is the platform's lower-casing. */
  function ConvertToHostname(lower: string -> string, input: string): Outcome {
    var cleaned := Clean(lower(CamelSplit(input)));
    if cleaned == "" then Fallback(NothingLeft)
    else
      var result := Truncated(Prefixed(cleaned));
      if result == "" then Fallback(NothingAfterTruncation)
      else if !IsValidHostname(result) then Fallback(LastResort)
      else Name(result)
  }

  /** What the conversion needs of lower-casing: no capital is left, and texts of small
      letters, digits and hyphens stay as they are. */
  ghost predicate LowerCases(lower: string -> string) {
    (forall s, i {:trigger lower(s)[i]} :: 0 <= i < |lower(s)| ==> !IsUpper(lower(s)[i])) &&
    (forall s :: HostnameChars(s) && NoUpper(s) ==> lower(s) == s)
  }

  predicate NoUpper(s: string) {
    forall i :: 0 <= i < |s| ==> !IsUpper(s[i])
  }

  // ----- what cleaning amounts to: the words, joined by hyphens

  /** The maximal runs of letters and digits. */
  function Words(s: string): (words: seq<string>)
    ensures s != "" && IsAlnum(s[0]) ==> words != []
  {
    if s == "" then []
    else if !IsAlnum(s[0]) then Words(s[1..])
    else if |s| > 1 && IsAlnum(s[1]) then
      var words := Words(s[1..]);
      [[s[0]] + words[0]] + words[1..]
    else [[s[0]]] + Words(s[1..])
  }

  lemma WordsStep(c: char, s: string)
    ensures Words([c] + s) ==
            if !IsAlnum(c) then Words(s)
            else if s != "" && IsAlnum(s[0]) then [[c] + Words(s)[0]] + Words(s)[1..]
            else [[c]] + Words(s)
  {
    assert ([c] + s)[1..] == s;
  }

  lemma {:induction false} WordsOfReplaceEach(s: string, p: char -> bool)
    requires forall c :: p(c) ==> !IsAlnum(c)
    ensures Words(ReplaceEach(s, p)) == Words(s)
    ensures s != "" ==> ReplaceEach(s, p) != "" && IsAlnum(ReplaceEach(s, p)[0]) == IsAlnum(s[0])
  {
    if s != "" {
      WordsOfReplaceEach(s[1..], p);
      WordsStep(if p(s[0]) then '-' else s[0], ReplaceEach(s[1..], p));
      WordsStep(s[0], s[1..]);
      assert s == [s[0]] + s[1..];
    }
  }

  lemma {:induction false} WordsOfReplaceRuns(s: string, p: char -> bool)
    requires forall c :: p(c) ==> !IsAlnum(c)
    ensures Words(ReplaceRuns(s, p)) == Words(s)
    ensures s != "" ==> ReplaceRuns(s, p) != "" && IsAlnum(ReplaceRuns(s, p)[0]) == IsAlnum(s[0])
  {
    if s != "" {
      WordsOfReplaceRuns(s[1..], p);
      WordsStep(if p(s[0]) then '-' else s[0], ReplaceRuns(s[1..], p));
      WordsStep(s[0], s[1..]);
      assert s == [s[0]] + s[1..];
    }
  }

  lemma {:induction false} WordsOfStripFront(s: string)
    ensures Words(StripFront(s)) == Words(s)
  {
    if s != "" && s[0] == '-' {
      WordsOfStripFront(s[1..]);
    }
  }

  lemma {:induction false} WordsThenHyphen(s: string)
    ensures Words(s + ['-']) == Words(s)
  {
    if s == "" {
      assert s + ['-'] == ['-'] + "";
      WordsStep('-', "");
    } else {
      WordsThenHyphen(s[1..]);
      assert s + ['-'] == [s[0]] + (s[1..] + ['-']);
      WordsStep(s[0], s[1..] + ['-']);
      WordsStep(s[0], s[1..]);
      assert s == [s[0]] + s[1..];
    }
  }

  lemma {:induction false} WordsOfStripBack(s: string)
    ensures Words(StripBack(s)) == Words(s)
  {
    if s != "" && s[|s| - 1] == '-' {
      WordsOfStripBack(s[..|s| - 1]);
      WordsThenHyphen(s[..|s| - 1]);
      assert s == s[..|s| - 1] + ['-'];
    }
  }

  /** No hyphen at either end, none doubled, nothing but letters and digits besides. */
  predicate Tidy(s: string) {
    HostnameChars(s) && NoDoubleHyphen(s) && (s != "" ==> s[0] != '-' && s[|s| - 1] != '-')
  }

  lemma {:induction false} TidyIsJoined(s: string)
    requires Tidy(s)
    ensures s == Join(Words(s), "-")
    ensures s != "" ==> Words(s) != []
  {
    if |s| > 1 && s[1] == '-' {
      var rest := s[2..];
      assert s == [s[0]] + (['-'] + rest);
      WordsStep(s[0], ['-'] + rest);
      WordsStep('-', rest);
      TidyRest(s, 2);
      TidyIsJoined(rest);
      assert ([[s[0]]] + Words(rest))[1..] == Words(rest);
      Associate([s[0]], "-", rest);
    } else if |s| > 1 {
      var rest := s[1..];
      assert s == [s[0]] + rest;
      WordsStep(s[0], rest);
      TidyRest(s, 1);
      TidyIsJoined(rest);
      JoinGrows(s[0], Words(rest));
    } else if |s| == 1 {
      assert s == [s[0]] + "";
      WordsStep(s[0], "");
      assert Words("") == [];
    }
  }

  lemma TidyRest(s: string, n: nat)
    requires Tidy(s) && n < |s| && s[n] != '-'
    ensures Tidy(s[n..])
  {
    var t := s[n..];
    assert forall i :: 0 <= i < |t| ==> t[i] == s[i + n];
    forall i | 0 < i < |t| ensures !(t[i - 1] == '-' && t[i] == '-') {
      assert t[i - 1] == s[i + n - 1] && t[i] == s[i + n];
    }
  }

  lemma JoinGrows(c: char, words: seq<string>)
    requires words != []
    ensures Join([[c] + words[0]] + words[1..], "-") == [c] + Join(words, "-")
  {
    var grown := [[c] + words[0]] + words[1..];
    assert grown[1..] == words[1..];
    if |words| > 1 {
      Associate([c], words[0], "-");
      Associate([c], words[0] + "-", Join(words[1..], "-"));
    }
  }

  lemma {:induction false} ReplacedChars(s: string, p: char -> bool, q: char -> bool)
    requires forall i :: 0 <= i < |s| ==> p(s[i]) || q(s[i])
    requires q('-')
    ensures |ReplaceEach(s, p)| == |s| && forall i :: 0 <= i < |s| ==> q(ReplaceEach(s, p)[i])
    ensures forall i :: 0 <= i < |ReplaceRuns(s, p)| ==> q(ReplaceRuns(s, p)[i])
  {
    if s != "" {
      ReplacedChars(s[1..], p, q);
    }
  }

  lemma {:induction false} RunsLeaveSingles(s: string)
    ensures NoDoubleHyphen(ReplaceRuns(s, IsHyphen))
    ensures s != "" ==> ReplaceRuns(s, IsHyphen) != "" && IsHyphen(ReplaceRuns(s, IsHyphen)[0]) == IsHyphen(s[0])
  {
    if s != "" {
      RunsLeaveSingles(s[1..]);
    }
  }

  lemma {:induction false} StripFrontIsSuffix(s: string)
    ensures exists n :: 0 <= n <= |s| && StripFront(s) == s[n..]
    ensures StripFront(s) != "" ==> StripFront(s)[0] != '-'
  {
    if s != "" && s[0] == '-' {
      StripFrontIsSuffix(s[1..]);
      var n :| 0 <= n <= |s[1..]| && StripFront(s[1..]) == s[1..][n..];
      assert s[1..][n..] == s[n + 1..];
    } else {
      assert s == s[0..];
    }
  }

  lemma {:induction false} StripBackIsPrefix(s: string) returns (n: nat)
    ensures n <= |s| && StripBack(s) == s[..n] && (n > 0 ==> s[n - 1] != '-')
    ensures forall i :: n <= i < |s| ==> s[i] == '-'
  {
    if s != "" && s[|s| - 1] == '-' {
      n := StripBackIsPrefix(s[..|s| - 1]);
      assert s[..|s| - 1][..n] == s[..n];
    } else {
      n := |s|;
      assert s == s[..n];
    }
  }

  /** Letters (small ones, if nothing else came in), digits and hyphens. */
  predicate IsSlug(c: char) {
    IsLower(c) || IsDigit(c) || IsHyphen(c)
  }

  predicate Slug(s: string) {
    forall i :: 0 <= i < |s| ==> IsSlug(s[i])
  }

  predicate SlugOrSpace(c: char) {
    IsSlug(c) || IsSpace(c)
  }

  predicate NotUpper(c: char) {
    !IsUpper(c)
  }

  lemma SuffixStaysClean(s: string, n: nat)
    requires n <= |s| && Slug(s) && NoDoubleHyphen(s)
    ensures Slug(s[n..]) && NoDoubleHyphen(s[n..])
  {
    var t := s[n..];
    assert forall i :: 0 <= i < |t| ==> t[i] == s[n + i];
    forall i | 0 < i < |t| ensures !(t[i - 1] == '-' && t[i] == '-') {
      assert t[i - 1] == s[n + i - 1] && t[i] == s[n + i];
    }
  }

  lemma StripBackIsTidy(s: string)
    requires Slug(s) && NoDoubleHyphen(s) && (s != "" ==> s[0] != '-')
    ensures Tidy(StripBack(s)) && Slug(StripBack(s))
  {
    var n := StripBackIsPrefix(s);
  }

  lemma StrippedIsTidy(s: string)
    requires Slug(s) && NoDoubleHyphen(s)
    ensures Tidy(StripBack(StripFront(s))) && Slug(StripBack(StripFront(s)))
  {
    StripFrontIsSuffix(s);
    var n :| 0 <= n <= |s| && StripFront(s) == s[n..];
    SuffixStaysClean(s, n);
    StripBackIsTidy(StripFront(s));
  }

  /** Cleaning keeps the words of the text and joins them with single hyphens. */
  lemma {:induction false} CleanIsJoinedWords(s: string)
    requires NoUpper(s)
    ensures Clean(s) == Join(Words(s), "-")
    ensures Tidy(Clean(s)) && Slug(Clean(s))
    ensures Clean(s) == "" <==> Words(s) == []
  {
    var s1 := ReplaceEach(s, IsUnderscore);
    var s2 := ReplaceEach(s1, IsSymbol);
    var s3 := ReplaceRuns(s2, IsSpace);
    var s4 := ReplaceRuns(s3, IsHyphen);
    ReplacedChars(s, IsUnderscore, NotUpper);
    ReplacedChars(s1, IsSymbol, SlugOrSpace);
    ReplacedChars(s2, IsSpace, IsSlug);
    ReplacedChars(s3, IsHyphen, IsSlug);
    RunsLeaveSingles(s3);
    StrippedIsTidy(s4);
    WordsOfReplaceEach(s, IsUnderscore);
    WordsOfReplaceEach(s1, IsSymbol);
    WordsOfReplaceRuns(s2, IsSpace);
    WordsOfReplaceRuns(s3, IsHyphen);
    WordsOfStripFront(s4);
    WordsOfStripBack(StripFront(s4));
    TidyIsJoined(Clean(s));
  }

  // ----- the last step

  lemma PrefixJoins(s: string)
    requires Tidy(s) && Slug(s) && s != ""
    ensures Tidy(PREFIX + s) && Slug(PREFIX + s) && IsLower((PREFIX + s)[0]) && |PREFIX + s| == |s| + 11
  {
    PrefixChars();
    var t := PREFIX + s;
    assert forall i :: 11 <= i < |t| ==> t[i] == s[i - 11];
    forall i | 0 < i < |t| ensures !(t[i - 1] == '-' && t[i] == '-') {
      if i > 11 {
        assert t[i - 1] == s[i - 12] && t[i] == s[i - 11];
      }
    }
  }

  lemma PrefixChars()
    ensures |PREFIX| == 11 && IsLower(PREFIX[0]) && Slug(PREFIX) && NoDoubleHyphen(PREFIX)
  {
  }

  lemma PrefixedIsTidy(cleaned: string)
    requires Tidy(cleaned) && Slug(cleaned) && cleaned != ""
    ensures Tidy(Prefixed(cleaned)) && Slug(Prefixed(cleaned)) && |Prefixed(cleaned)| >= 5
    ensures IsLower(Prefixed(cleaned)[0])
  {
    PrefixJoins(cleaned);
  }

  /** Truncation removes at most one hyphen, because none is doubled. */
  lemma TruncatedIsValid(s: string)
    requires Tidy(s) && Slug(s) && |s| >= 5 && IsLower(s[0])
    ensures IsValidHostname(Truncated(s)) && NoUpper(Truncated(s))
    ensures |s| <= 63 ==> Truncated(s) == s
  {
    var t := if |s| > 63 then s[..63] else s;
    var n := StripBackIsPrefix(t);
    if |s| > 63 {
      assert !(t[61] == '-' && t[62] == '-');
      assert n >= 62;
    } else {
      assert n == |s|;
    }
  }

  /** The conversion gives a valid lower-case name unless the text has no letter or digit
      left at all: the other two exits to a generated name are never taken. */
  lemma {:induction false} ConversionIsValid(lower: string -> string, input: string)
    requires LowerCases(lower)
    ensures var r := ConvertToHostname(lower, input);
            match r
            case Name(name) => IsValidHostname(name) && NoUpper(name) && Words(lower(CamelSplit(input))) != []
            case Fallback(reason) => reason == NothingLeft && Words(lower(CamelSplit(input))) == []
  {
    var s := lower(CamelSplit(input));
    assert NoUpper(s);
    CleanIsJoinedWords(s);
    if Clean(s) != "" {
      PrefixedIsTidy(Clean(s));
      TruncatedIsValid(Prefixed(Clean(s)));
    }
  }

  /** With five to 63 characters and a letter in front, the name is just the words joined by hyphens. */
  lemma ConversionOfOrdinaryText(lower: string -> string, input: string)
    requires LowerCases(lower)
    requires var joined := Join(Words(lower(CamelSplit(input))), "-"); 5 <= |joined| <= 63 && !IsDigit(joined[0])
    ensures ConvertToHostname(lower, input) == Name(Join(Words(lower(CamelSplit(input))), "-"))
  {
    var s := lower(CamelSplit(input));
    assert NoUpper(s);
    CleanIsJoinedWords(s);
    TruncatedIsValid(Clean(s));
  }

  lemma {:induction false} CamelSplitKeeps(s: string)
    requires NoUpper(s)
    ensures CamelSplit(s) == s
  {
    if |s| >= 2 {
      CamelSplitKeeps(s[1..]);
      assert s == [s[0]] + s[1..];
    }
  }

  /** The other lengths: a name that starts with a digit or is too short gets the prefix, one
      too long is cut after 63 characters, or before the hyphen it would otherwise end with. */
  lemma ConversionOfOtherText(lower: string -> string, input: string, joined: string)
    requires LowerCases(lower)
    requires joined == Join(Words(lower(CamelSplit(input))), "-") && joined != ""
    ensures |joined| <= 52 && (IsDigit(joined[0]) || |joined| < 5) ==>
              ConvertToHostname(lower, input) == Name("dstack-app-" + joined)
    ensures |joined| > 63 && !IsDigit(joined[0]) ==>
              ConvertToHostname(lower, input) == Name(if joined[62] == '-' then joined[..62] else joined[..63])
    ensures |joined| > 52 && IsDigit(joined[0]) ==>
              ConvertToHostname(lower, input) ==
              Name("dstack-app-" + (if joined[51] == '-' then joined[..51] else joined[..52]))
  {
    var s := lower(CamelSplit(input));
    assert NoUpper(s);
    CleanIsJoinedWords(s);
    PrefixedIsTidy(joined);
    var long := Prefixed(joined);
    TruncatedIsValid(long);
    if |long| > 63 {
      CutAtHyphen(long);
      assert |PREFIX| == 11;
      assert IsDigit(joined[0]) ==> long[..62] == PREFIX + joined[..51] && long[..63] == PREFIX + joined[..52];
    }
  }

  lemma CutAtHyphen(s: string)
    requires |s| > 63 && NoDoubleHyphen(s)
    ensures Truncated(s) == if s[62] == '-' then s[..62] else s[..63]
  {
    var t := s[..63];
    var n := StripBackIsPrefix(t);
    assert !(t[61] == '-' && t[62] == '-');
    assert n >= 62 && t[..n] == s[..n];
  }

  /** What stands between two characters after splitting. */
  function Border(c: char, d: char): string {
    if IsLower(c) && IsUpper(d) then "-" else ""
  }

  /** One character at a time: a split capital is no small letter, so it starts no other split. */
  lemma CamelStep(c: char, t: string)
    requires t != ""
    ensures CamelSplit([c] + t) == [c] + Border(c, t[0]) + CamelSplit(t)
  {
    var u, rest := [c] + t, t[1..];
    assert u[1..] == t && u[2..] == rest;
    if IsLower(c) && IsUpper(t[0]) {
      CapitalStarts(t);
      assert CamelSplit(u) == [c, '-', t[0]] + CamelSplit(rest);
      assert [c, '-', t[0]] == [c] + "-" + [t[0]];
      Associate([c] + "-", [t[0]], CamelSplit(rest));
    } else {
      assert CamelSplit(u) == [c] + CamelSplit(t);
    }
  }

  lemma CapitalStarts(t: string)
    requires t != "" && IsUpper(t[0])
    ensures CamelSplit(t) == [t[0]] + CamelSplit(t[1..])
  {
    if |t| == 1 {
      assert t == [t[0]] && t[1..] == "";
    }
  }

  lemma Regroup(x: string, y: string, z: string, w: string)
    ensures x + (y + z + w) == x + y + z + w
  {
    Associate(x, y, z);
    Associate(x, y + z, w);
  }

  /** Splitting camel case puts a hyphen at each border between a small letter and a capital,
      and nowhere else. */
  lemma {:induction false} CamelBorders(s: string, t: string)
    requires s != "" && t != ""
    ensures CamelSplit(s + t) == CamelSplit(s) + Border(s[|s| - 1], t[0]) + CamelSplit(t)
  {
    if |s| == 1 {
      CamelSingle(s);
      CamelStep(s[0], t);
    } else {
      var rest := s[1..];
      CamelBorders(rest, t);
      CamelStep(s[0], rest + t);
      CamelStep(s[0], rest);
      assert s + t == [s[0]] + (rest + t) && s == [s[0]] + rest;
      var front := [s[0]] + Border(s[0], s[1]);
      Regroup(front, CamelSplit(rest), Border(s[|s| - 1], t[0]), CamelSplit(t));
      assert CamelSplit(s) == front + CamelSplit(rest);
    }
  }

  lemma CamelSingle(s: string)
    requires |s| == 1
    ensures CamelSplit(s) == s == [s[0]]
  {}

  /** The fixed points are exactly the valid names without capitals. */
  lemma FixedPoints(lower: string -> string, s: string)
    requires LowerCases(lower)
    ensures ConvertToHostname(lower, s) == Name(s) <==> IsValidHostname(s) && NoUpper(s)
  {
    ConversionIsValid(lower, s);
    if IsValidHostname(s) && NoUpper(s) {
      CamelSplitKeeps(s);
      assert lower(s) == s;
      TidyIsJoined(s);
      CleanIsJoinedWords(s);
      TruncatedIsValid(s);
    }
  }

  /** Converting a converted name changes nothing. */
  lemma ConversionIdempotent(lower: string -> string, input: string)
    requires LowerCases(lower) && ConvertToHostname(lower, input).Name?
    ensures ConvertToHostname(lower, ConvertToHostname(lower, input).name) == ConvertToHostname(lower, input)
  {
    ConversionIsValid(lower, input);
    FixedPoints(lower, ConvertToHostname(lower, input).name);
  }

  // ----- generated names

  function FallbackHostname(timestamp: string, random: string): string {
    PREFIX + (timestamp + (['-'] + random))
  }

  predicate Base36(s: string) {
    forall i :: 0 <= i < |s| ==> IsLower(s[i]) || IsDigit(s[i])
  }

  /** A generated name is valid exactly when the random part is not empty (it is empty
      when the random number's expansion has no digits after the point). */
  lemma FallbackValidity(timestamp: string, random: string)
    requires Base36(timestamp) && timestamp != "" && Base36(random) && |timestamp| + |random| <= 51
    ensures IsValidHostname(FallbackHostname(timestamp, random)) <==> random != ""
  {
    var t := timestamp + (['-'] + random);
    var s := FallbackHostname(timestamp, random);
    assert |PREFIX| == 11;
    assert s == PREFIX + t;
    if random != "" {
      JoinedByHyphen(timestamp, random);
      PrefixJoins(t);
    } else {
      assert t[|t| - 1] == '-' && s[|s| - 1] == t[|t| - 1];
    }
  }

  lemma JoinedByHyphen(a: string, b: string)
    requires Base36(a) && Base36(b) && a != "" && b != ""
    ensures Tidy(a + (['-'] + b)) && Slug(a + (['-'] + b))
  {
    var s := a + (['-'] + b);
    assert forall i :: |a| < i < |s| ==> s[i] == b[i - |a| - 1];
  }

  /** The default name of a prefix and five random characters, or a cut prefix and three. */
  function DefaultCvmName(prefix: string, random: string, shortRandom: string): string {
    var result := prefix + (['-'] + random);
    if |result| <= 63 then result
    else (if |prefix| > 55 then prefix[..55] else prefix) + (['-'] + shortRandom)
  }

  /** For a valid prefix the default name is valid unless the cut falls right after a hyphen. */
  lemma DefaultNameValidity(prefix: string, random: string, shortRandom: string)
    requires IsValidHostname(prefix)
    requires Base36(random) && |random| == 5 && Base36(shortRandom) && |shortRandom| == 3
    ensures IsValidHostname(DefaultCvmName(prefix, random, shortRandom)) <==> (|prefix| <= 57 || prefix[54] != '-')
  {
    if |prefix| <= 57 {
      HyphenThen(prefix, random);
    } else {
      var cut := prefix[..55];
      if prefix[54] != '-' {
        HyphenThen(cut, shortRandom);
      } else {
        var s := cut + (['-'] + shortRandom);
        assert s[54] == '-' && s[55] == '-';
      }
    }
  }

  lemma HyphenThen(a: string, b: string)
    requires HostnameChars(a) && NoDoubleHyphen(a) && a != "" && (IsLower(a[0]) || IsUpper(a[0])) && a[|a| - 1] != '-'
    requires Base36(b) && b != "" && 4 <= |a| + |b| <= 62
    ensures IsValidHostname(a + (['-'] + b))
  {
    var s := a + (['-'] + b);
    assert forall i :: |a| < i < |s| ==> s[i] == b[i - |a| - 1];
  }
}
