/** The two scanners that decide whether an OS image version is below 0.6.0:
    Go's stops at a number that does not fit its int, JavaScript's does not. */
module OsImage {
  import opened Text
  import opened Decimal

  const MAX_INT: int := 0x7FFF_FFFF_FFFF_FFFF

  /** The leading numbers of dot-separated parts. Go gives up on a part that
      overflows its int; JavaScript does not. */
  function Parts(c: Client, raws: seq<string>): seq<nat> {
    if raws == [] then []
    else
      var digits := LeadingDigits(raws[0]);
      var value := Number(digits);
      if digits == "" || (c.Go? && value > MAX_INT) then []
      else if |digits| != |raws[0]| then [value]
      else [value] + Parts(c, raws[1..])
  }

  function PartOr0(parts: seq<nat>, i: nat): nat {
    if i < |parts| then parts[i] else 0
  }

  predicate IsBelow(c: Client, version: string) {
    var parts := Parts(c, Split(version, '.'));
    PartOr0(parts, 0) == 0 && PartOr0(parts, 1) < 6
  }

  /** The loop of osImageBelow060 and, without the overflow break, of parseOsImageVersion. */
  method ScanParts(c: Client, raws: seq<string>) returns (parts: seq<nat>)
    ensures parts == Parts(c, raws)
  {
    parts := [];
    var i := 0;
    while i < |raws|
      invariant 0 <= i <= |raws|
      invariant parts + Parts(c, raws[i..]) == Parts(c, raws)
    {
      ghost var tail := raws[i..];
      assert tail[0] == raws[i] && tail[1..] == raws[i + 1..];
      var digits := LeadingDigits(raws[i]);
      if digits == "" {
        return;
      }
      var n := Number(digits);
      if c.Go? && n > MAX_INT {
        return;
      }
      parts := parts + [n];
      if |digits| != |raws[i]| {
        return;
      }
      i := i + 1;
    }
  }

  method Below060(c: Client, version: string) returns (below: bool)
    ensures below == IsBelow(c, version)
  {
    var parts := ScanParts(c, Split(version, '.'));
    ghost var scanned := parts;
    while |parts| < (if c.Go? then 2 else 3)
      invariant PartOr0(parts, 0) == PartOr0(scanned, 0)
      invariant PartOr0(parts, 1) == PartOr0(scanned, 1)
    {
      parts := parts + [0];
    }
    below := parts[0] == 0 && parts[1] < 6;
  }

  // ----- what the scan means

  /** A version that starts with two numbers is judged by those numbers, whatever follows. */
  lemma ScansTwoNumbers(c: Client, major: string, minor: string, suffix: string)
    requires major != "" && AllDigits(major) && minor != "" && AllDigits(minor)
    requires suffix == "" || !IsDigit(suffix[0])
    requires c.Go? ==> Number(major) <= MAX_INT && Number(minor) <= MAX_INT
    ensures IsBelow(c, major + "." + (minor + suffix)) <==> Number(major) == 0 && Number(minor) < 6
  {
    var raws := Split(minor + suffix, '.');
    assert '.' !in major;
    SplitFirstThen(major, minor + suffix, '.');
    SpanOf(major, "");
    assert major + "" == major;
    SplitFront(minor, suffix);
    SpanOf(minor, raws[0][|minor|..]);
    assert raws[0] == minor + raws[0][|minor|..];
    assert LeadingDigits(raws[0]) == minor;
    TwoParts(c, major, raws);
  }

  lemma TwoParts(c: Client, major: string, raws: seq<string>)
    requires major != "" && LeadingDigits(major) == major
    requires c.Go? ==> Number(major) <= MAX_INT
    ensures Parts(c, [major] + raws) == [Number(major)] + Parts(c, raws)
  {
    assert ([major] + raws)[1..] == raws;
  }

  /** The first dot-separated part keeps the digits the text starts with. */
  lemma {:induction false} SplitFront(d: string, suffix: string)
    requires AllDigits(d)
    requires suffix == "" || !IsDigit(suffix[0])
    ensures var first := Split(d + suffix, '.')[0];
            StartsWith(first, d) && (|first| > |d| ==> !IsDigit(first[|d|]))
  {
    if d == "" {
      assert d + suffix == suffix;
    } else {
      SplitFront(d[1..], suffix);
      assert (d + suffix)[1..] == d[1..] + suffix;
      var first := Split(d + suffix, '.')[0];
      var inner := Split(d[1..] + suffix, '.')[0];
      assert first == [d[0]] + inner;
      assert first[..|d|] == [d[0]] + inner[..|d| - 1];
    }
  }

  /** Anything that does not start with a number counts as 0.0.0. */
  lemma UnparseableIsBelow(c: Client, version: string)
    requires version == "" || !IsDigit(version[0])
    ensures IsBelow(c, version)
  {
    SplitFront("", version);
    assert "" + version == version;
  }

  // ----- agreement of the two clients

  /** The first number overflows Go's int, or it is a plain 0 and the second one does. */
  predicate Overflows(version: string) {
    var raws := Split(version, '.');
    Number(LeadingDigits(raws[0])) > MAX_INT ||
    (raws[0] != "" && AllDigits(raws[0]) && Number(raws[0]) == 0 && |raws| > 1 &&
     Number(LeadingDigits(raws[1])) > MAX_INT)
  }

  lemma ScannersAgree(version: string)
    ensures IsBelow(Go, version) == IsBelow(Js, version) <==> !Overflows(version)
  {
    var raws := Split(version, '.');
    var digits := LeadingDigits(raws[0]);
    if raws[0] != "" && AllDigits(raws[0]) {
      SpanOf(raws[0], "");
      assert raws[0] + "" == raws[0];
      if Number(digits) <= MAX_INT {
        assert raws == [raws[0]] + raws[1..];
        TwoParts(Go, raws[0], raws[1..]);
        TwoParts(Js, raws[0], raws[1..]);
      }
    } else {
      assert |digits| != |raws[0]| || raws[0] == "";
    }
  }

  /** The smallest number that overflows: below 0.6.0 for Go, not for JavaScript. */
  lemma OverflowDiffers()
    ensures IsBelow(Go, Numeral(MAX_INT + 1)) && !IsBelow(Js, Numeral(MAX_INT + 1))
  {
    var version := Numeral(MAX_INT + 1);
    NumberOfNumeral(MAX_INT + 1);
    assert '.' !in version;
    SplitFirst(version, '.');
    SpanOf(version, "");
    assert version + "" == version;
    assert [version][1..] == [];
  }

  // ----- the version read in one go

  /** The first number of a version, and the second one if it follows a dot. */
  function Major(version: string): string {
    LeadingDigits(version)
  }

  function Minor(version: string): string {
    var rest := version[|Major(version)|..];
    if Major(version) != "" && rest != "" && rest[0] == '.' then LeadingDigits(rest[1..]) else ""
  }

  lemma FirstPart(s: string)
    ensures var first, d := Split(s, '.')[0], LeadingDigits(s);
            LeadingDigits(first) == d && (|first| == |d| <==> |s| == |d| || s[|d|] == '.')
  {
    var d := LeadingDigits(s);
    var suffix := s[|d|..];
    assert s == d + suffix;
    SplitFront(d, suffix);
    var first := Split(s, '.')[0];
    assert first == d + first[|d|..];
    SpanOf(d, first[|d|..]);
    if suffix == "" || suffix[0] == '.' {
      FirstIsDigits(d, suffix);
    } else {
      FirstGoesOn(d, suffix);
    }
  }

  lemma FirstIsDigits(d: string, suffix: string)
    requires AllDigits(d) && (suffix == "" || suffix[0] == '.')
    ensures Split(d + suffix, '.')[0] == d
    ensures suffix != "" ==> Split(d + suffix, '.') == [d] + Split(suffix[1..], '.')
  {
    assert '.' !in d;
    if suffix == "" {
      assert d + suffix == d;
      SplitFirst(d, '.');
    } else {
      assert d + suffix == d + ['.'] + suffix[1..];
      SplitFirstThen(d, suffix[1..], '.');
    }
  }

  lemma {:induction false} FirstGoesOn(d: string, suffix: string)
    requires AllDigits(d) && suffix != "" && suffix[0] != '.'
    ensures |Split(d + suffix, '.')[0]| > |d|
  {
    if d == "" {
      assert d + suffix == suffix;
    } else {
      FirstGoesOn(d[1..], suffix);
      assert (d + suffix)[1..] == d[1..] + suffix;
    }
  }

  /** Every version is judged by its first two numbers, a missing one counting as 0; in Go
      one that does not fit an int counts as 0 and hides what follows. */
  lemma JudgedByTwoNumbers(version: string)
    ensures var major, minor := Number(Major(version)), Number(Minor(version));
            (IsBelow(Js, version) <==> major == 0 && minor < 6) &&
            (IsBelow(Go, version) <==> major > MAX_INT || (major == 0 && (minor < 6 || minor > MAX_INT)))
  {
    var d, raws := Major(version), Split(version, '.');
    FirstPart(version);
    assert Number("") == 0;
    if d != "" && |version| > |d| && version[|d|] == '.' {
      assert version == d + version[|d|..];
      FirstIsDigits(d, version[|d|..]);
      assert version[|d|..][1..] == version[|d| + 1..];
      FirstPart(version[|d| + 1..]);
      assert raws[1..] == Split(version[|d| + 1..], '.');
    } else if d != "" && |version| == |d| {
      FirstIsDigits(d, "");
      assert version == d && d + "" == d;
      SplitFirst(d, '.');
      assert raws == [d] && raws[1..] == [] && version[|d|..] == "";
      assert Parts(Js, raws) == [Number(d)];
      assert Parts(Go, raws) == if Number(d) > MAX_INT then [] else [Number(d)];
    } else {
      assert Minor(version) == "";
      assert Parts(Js, raws) == if d == "" then [] else [Number(d)];
      assert Parts(Go, raws) == if d == "" || Number(d) > MAX_INT then [] else [Number(d)];
    }
  }
}
