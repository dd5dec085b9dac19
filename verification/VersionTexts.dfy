/** The release scripts on texts: what each bump and each translation writes, spelled out. */
module VersionTexts {
  import opened Text
  import opened Decimal
  import opened Versions

  /** Three numbers with dots between them. */
  function Three(a: nat, b: nat, c: nat): string {
    Numeral(a) + "." + Numeral(b) + "." + Numeral(c)
  }

  lemma ThreeIsDotted(a: nat, b: nat, c: nat)
    ensures Three(a, b, c) == Dotted(Numeral(a), Numeral(b), Numeral(c))
  {
    var x, y, z := Numeral(a), Numeral(b), Numeral(c);
    Associate(x, ".", y);
    Associate(x, "." + y, ".");
    Associate(x, "." + y + ".", z);
    Associate(".", y, ".");
    Associate(".", y + ".", z);
    Associate(y, ".", z);
  }

  lemma FinalText(a: nat, b: nat, c: nat)
    ensures Print(Version(a, b, c, None)) == Three(a, b, c)
  {
    ThreeIsDotted(a, b, c);
    assert Three(a, b, c) + "" == Three(a, b, c);
  }

  lemma PreTextOf(a: nat, b: nat, c: nat, tag: string, n: nat)
    ensures Print(Version(a, b, c, Some(Pre(tag, n)))) == Three(a, b, c) + "-" + tag + "." + Numeral(n)
  {
    ThreeIsDotted(a, b, c);
    var t := Three(a, b, c);
    Associate(t, "-", tag);
    Associate(t, "-" + tag, ".");
    Associate(t, "-" + tag + ".", Numeral(n));
    Associate("-", tag, ".");
    Associate("-", tag + ".", Numeral(n));
    Associate(tag, ".", Numeral(n));
  }

  lemma BumpedPrint(d: Dialect, v: Version, t: ReleaseType, tag: string, text: string, w: Version, result: string)
    requires ValidVersion(d, v) && text == Print(v)
    requires w == Bumped(v, t, tag) && result == Print(w)
    ensures BumpedText(d, text, t, tag) == Some(result)
  {
    ParsePrint(d, v);
  }

  /** What is written behind the raised numbers: nothing, or the first pre-release of a tag. */
  function FirstOf(tag: string): string {
    if tag == "" then "" else "-" + tag + ".1"
  }

  lemma FirstText(a: nat, b: nat, c: nat, tag: string)
    ensures Print(Version(a, b, c, if tag == "" then None else Some(Pre(tag, 1)))) == Three(a, b, c) + FirstOf(tag)
  {
    if tag == "" {
      FinalText(a, b, c);
      assert Three(a, b, c) + "" == Three(a, b, c);
    } else {
      PreTextOf(a, b, c, tag, 1);
      assert Numeral(1) == "1";
      Associate(Three(a, b, c), "-", tag);
      Associate(Three(a, b, c), "-" + tag, ".");
      Associate(Three(a, b, c), "-" + tag + ".", "1");
      Associate("-" + tag, ".", "1");
    }
  }

  lemma RaisedText(d: Dialect, v: Version, t: ReleaseType, tag: string, a: nat, b: nat, c: nat)
    requires ValidVersion(d, v) && Raised(v, t) == Version(a, b, c, None)
    requires v.pre.None? || (tag != "" && tag != v.pre.value.tag)
    ensures BumpedText(d, Print(v), t, tag) == Some(Three(a, b, c) + FirstOf(tag))
  {
    FirstText(a, b, c, tag);
    var w := Version(a, b, c, if tag == "" then None else Some(Pre(tag, 1)));
    BumpedPrint(d, v, t, tag, Print(v), w, Print(w));
  }

  /** A release is raised in the number named, the numbers behind it start again at zero,
      and a tag starts at one. */
  lemma BumpOfFinal(d: Dialect, a: nat, b: nat, c: nat, t: ReleaseType, tag: string, x: nat, y: nat, z: nat)
    requires (x, y, z) == match t case Major => (a + 1, 0, 0) case Minor => (a, b + 1, 0) case Patch => (a, b, c + 1)
    ensures BumpedText(d, Three(a, b, c), t, tag) == Some(Three(x, y, z) + FirstOf(tag))
  {
    FinalText(a, b, c);
    RaisedText(d, Version(a, b, c, None), t, tag, x, y, z);
  }

  /** From a pre-release, no tag drops what is behind the numbers. */
  lemma BumpToFinal(d: Dialect, a: nat, b: nat, c: nat, was: string, n: nat, t: ReleaseType)
    requires AllLower(was) && KnownTag(d, was)
    ensures BumpedText(d, Three(a, b, c) + "-" + was + "." + Numeral(n), t, "") == Some(Three(a, b, c))
  {
    var v := Version(a, b, c, Some(Pre(was, n)));
    FinalText(a, b, c);
    PreTextOf(a, b, c, was, n);
    BumpedPrint(d, v, t, "", Print(v), Version(a, b, c, None), Three(a, b, c));
  }

  /** The same tag counts on, whatever the type of the release. */
  lemma BumpToSameTag(d: Dialect, a: nat, b: nat, c: nat, was: string, n: nat, t: ReleaseType)
    requires AllLower(was) && KnownTag(d, was)
    ensures BumpedText(d, Three(a, b, c) + "-" + was + "." + Numeral(n), t, was) ==
            Some(Three(a, b, c) + "-" + was + "." + Numeral(n + 1))
  {
    var v, w := Version(a, b, c, Some(Pre(was, n))), Version(a, b, c, Some(Pre(was, n + 1)));
    PreTextOf(a, b, c, was, n);
    PreTextOf(a, b, c, was, n + 1);
    BumpedPrint(d, v, t, was, Print(v), w, Print(w));
  }

  /** Another tag bumps it as it bumps the release. */
  lemma BumpToOtherTag(d: Dialect, a: nat, b: nat, c: nat, was: string, n: nat, t: ReleaseType, tag: string)
    requires AllLower(was) && KnownTag(d, was) && tag != "" && tag != was
    ensures BumpedText(d, Three(a, b, c) + "-" + was + "." + Numeral(n), t, tag) ==
            BumpedText(d, Three(a, b, c), t, tag)
  {
    var v, r := Version(a, b, c, Some(Pre(was, n))), Raised(Version(a, b, c, None), t);
    FinalText(a, b, c);
    PreTextOf(a, b, c, was, n);
    RaisedText(d, v, t, tag, r.major, r.minor, r.patch);
    RaisedText(d, Version(a, b, c, None), t, tag, r.major, r.minor, r.patch);
  }

  // ----- PEP 440

  /** The tags as the package index writes them. */
  predicate TagPair(tag: string, short: string) {
    (tag == "alpha" && short == "a") || (tag == "beta" && short == "b") || (tag == "rc" && short == "rc")
  }

  lemma TagPairs(tag: string, short: string)
    requires TagPair(tag, short)
    ensures ShortTag(tag) == short && LongTag(short) == tag && KnownTag(Python, tag) && AllLower(tag)
    ensures AllLower(short) && IsShort(short)
  {
    assert |"alpha"| == 5 && |"beta"| == 4 && |"rc"| == 2 && |"a"| == 1 && |"b"| == 1;
  }

  lemma TranslatedFinal(a: nat, b: nat, c: nat)
    ensures ToPep440(Three(a, b, c)) == Some(Three(a, b, c))
    ensures FromPep440(Three(a, b, c)) == Three(a, b, c)
  {
    var v := Version(a, b, c, None);
    FinalText(a, b, c);
    ThreeIsDotted(a, b, c);
    GroupsOfVersion(v);
    MatchSpell(Python, GroupsOf(v));
    FromPepOfFinal(GroupsOf(v));
  }

  lemma ShortText(base: string, short: string, number: string)
    ensures base + (short + number) == base + short + number
  {}

  /** The dash and the dot go and the tag is shortened; the way back reads it again. */
  lemma TranslatedPre(a: nat, b: nat, c: nat, tag: string, short: string, n: nat)
    requires TagPair(tag, short)
    ensures ToPep440(Three(a, b, c) + "-" + tag + "." + Numeral(n)) == Some(Three(a, b, c) + short + Numeral(n))
    ensures FromPep440(Three(a, b, c) + short + Numeral(n)) == Three(a, b, c) + "-" + tag + "." + Numeral(n)
  {
    var v := Version(a, b, c, Some(Pre(tag, n)));
    TagPairs(tag, short);
    PreTextOf(a, b, c, tag, n);
    ThreeIsDotted(a, b, c);
    GroupsOfVersion(v);
    MatchSpell(Python, GroupsOf(v));
    FromPepOfPre(GroupsOf(v));
    ShortText(Three(a, b, c), short, Numeral(n));
  }

  /** With digits of any kind and a final newline, too. */
  lemma TranslatedBack(a: string, b: string, c: string, tag: string, short: string, n: string, end: string)
    requires Digits(a) && Digits(b) && Digits(c) && Digits(n) && TagPair(tag, short) && AtEnd(Python, end)
    ensures FromPep440(Dotted(a, b, c) + (short + (n + end))) == Dotted(a, b, c) + ("-" + (tag + ("." + n)))
  {
    TagPairs(tag, short);
    DottedThen(a, b, c, short + (n + end));
    TakeCoreOf(a, b, c, short + (n + end));
    ShortThen(short, n, end);
  }

  lemma ShortThen(short: string, n: string, end: string)
    requires AllLower(short) && IsShort(short) && Digits(n) && AtEnd(Python, end)
    ensures MatchShort(short + (n + end)) == Some(PepText(short, n))
  {
    LowerSpanOf(short, n + end);
    var s := short + (n + end);
    assert s[..|short|] == short && s[|short|..] == n + end;
    TakeDigitsOf(n, end);
  }

  lemma MatchedShort(s: string) returns (end: string)
    requires MatchShort(s).Some?
    ensures var p := MatchShort(s).value;
            IsShort(p.short) && Digits(p.number) && AtEnd(Python, end) && s == p.short + (p.number + end)
  {
    var n := LowerSpan(s);
    TakenDigits(s[n..]);
    end := TakeDigits(s[n..]).value.rest;
    assert s == s[..n] + s[n..];
  }

  /** Every other text comes back as it is. */
  lemma TranslatedBackOnly(s: string) returns (c: Core, p: PepText, end: string)
    ensures FromPep440(s) != s ==>
              Digits(c.major) && Digits(c.minor) && Digits(c.patch) && Digits(p.number) &&
              IsShort(p.short) && AtEnd(Python, end) &&
              s == Dotted(c.major, c.minor, c.patch) + (p.short + (p.number + end))
  {
    c, p, end := Core("", "", "", ""), PepText("", ""), "";
    if TakeCore(s).Some? {
      TakenCore(s);
      c := TakeCore(s).value;
      if MatchShort(c.rest).Some? {
        p := MatchShort(c.rest).value;
        end := MatchedShort(c.rest);
      }
    }
  }
}
