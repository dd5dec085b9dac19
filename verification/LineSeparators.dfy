/** The rewriter of the \u2028 and \u2029 escapes of Go's encoding/json into raw characters. */
module LineSeparators {
  import opened Text
  import opened Json

  const ESC_LS: string := "\\u2028"
  const ESC_PS: string := "\\u2029"

  /** The separator whose escape stands at the front of `t`, if any. */
  function SeparatorEscape(t: string): Option<char> {
    if |t| >= 6 && t[0] == '\\' && t[1] == 'u' && t[2] == '2' && t[3] == '0' && t[4] == '2' then
      if t[5] == '8' then Some(LS) else if t[5] == '9' then Some(PS) else None
    else None
  }

  /** The rewriting by escape pairs: a backslash always takes its successor with it. */
  function Unescape(t: string): string {
    if t == "" then ""
    else if t[0] != '\\' then [t[0]] + Unescape(t[1..])
    else if SeparatorEscape(t).Some? then [SeparatorEscape(t).value] + Unescape(t[6..])
    else if |t| == 1 then t
    else t[..2] + Unescape(t[2..])
  }

  lemma SeparatorSlice(t: string)
    requires |t| >= 6
    ensures t[..6] == ESC_LS <==> SeparatorEscape(t) == Some(LS)
    ensures t[..6] == ESC_PS <==> SeparatorEscape(t) == Some(PS)
  {
    assert forall k :: 0 <= k < 6 ==> t[..6][k] == t[k];
  }

  /** What the loop writes for the text at index `i`, and how far it moves. */
  method NextPiece(encoded: string, i: nat) returns (piece: string, n: nat)
    requires i < |encoded|
    ensures 0 < n <= |encoded| - i
    ensures Unescape(encoded[i..]) == piece + Unescape(encoded[i..][n..])
  {
    ghost var tail := encoded[i..];
    assert tail[0] == encoded[i];
    if encoded[i] != '\\' {
      return [encoded[i]], 1;
    }
    if i + 6 <= |encoded| {
      SeparatorSlice(tail);
      assert tail[..6] == encoded[i..i + 6];
      if encoded[i..i + 6] == ESC_LS {
        return [LS], 6;
      }
      if encoded[i..i + 6] == ESC_PS {
        return [PS], 6;
      }
    }
    if i + 1 < |encoded| {
      assert tail[..2] == ['\\', encoded[i + 1]];
      return ['\\', encoded[i + 1]], 2;
    }
    assert tail == ['\\'] && tail[1..] == "";
    return ['\\'], 1;
  }

  /** The loop over an index and a builder. */
  method UnescapeLineSeparators(encoded: string) returns (out: string)
    ensures out == Unescape(encoded)
  {
    out := "";
    var i := 0;
    while i < |encoded|
      invariant 0 <= i <= |encoded|
      invariant out + Unescape(encoded[i..]) == Unescape(encoded)
    {
      var piece, n := NextPiece(encoded, i);
      Associate(out, piece, Unescape(encoded[i..][n..]));
      assert encoded[i..][n..] == encoded[i + n..];
      out := out + piece;
      i := i + n;
    }
    assert encoded[i..] == "";
  }

  // ----- on the encoder's own output

  /** Text without a backslash is copied. */
  lemma {:induction false} UnescapePlain(p: string, rest: string)
    requires '\\' !in p
    ensures Unescape(p + rest) == p + Unescape(rest)
  {
    if p == "" {
      assert p + rest == rest;
    } else {
      UnescapePlain(p[1..], rest);
      assert (p + rest)[1..] == p[1..] + rest;
    }
  }

  lemma UnescapeEscapedChar(c: char, rest: string)
    ensures Unescape(EscapeChar(true, c) + rest) == EscapeChar(false, c) + Unescape(rest)
  {
    var e := EscapeChar(true, c);
    var t := e + rest;
    if e[0] != '\\' {
      UnescapePlain(e, rest);
    } else if |e| == 2 {
      assert t[1] == e[1] != 'u';
      assert t[..2] == e && t[2..] == rest;
    } else if c < ' ' {
      assert t[2] == e[2] == '0';
      assert t[..2] == e[..2] && t[2..] == e[2..] + rest;
      assert HexChar(c as int / 16) != '\\' && HexChar(c as int % 16) != '\\';
      UnescapePlain(e[2..], rest);
      assert e[..2] + e[2..] == e;
    } else {
      assert SeparatorEscape(t) == Some(c);
      assert t[6..] == rest;
    }
  }

  lemma {:induction false} UnescapeEscaped(s: string, rest: string)
    ensures Unescape(Escape(true, s) + rest) == Escape(false, s) + Unescape(rest)
  {
    if s == "" {
      assert Escape(true, s) + rest == rest;
    } else {
      var tail := Escape(true, s[1..]) + rest;
      UnescapeEscapedChar(s[0], tail);
      UnescapeEscaped(s[1..], rest);
      Associate(EscapeChar(true, s[0]), Escape(true, s[1..]), rest);
      Associate(EscapeChar(false, s[0]), Escape(false, s[1..]), Unescape(rest));
    }
  }

  lemma UnescapeQuoted(s: string, rest: string)
    ensures Unescape(Quote(true, s) + rest) == Quote(false, s) + Unescape(rest)
  {
    UnescapeWrapped("\"", Escape(true, s), Escape(false, s), "\"", rest) by {
      UnescapeEscaped(s, "\"" + rest);
    }
  }

  lemma {:induction false} UnescapePrinted(t: Tree, rest: string)
    requires WellFormed(t)
    ensures Unescape(Print(true, t) + rest) == Print(false, t) + Unescape(rest)
    decreases t, 1
  {
    match t
    case Null => UnescapePlain("null", rest);
    case Bool(b) => UnescapePlain(Print(true, t), rest);
    case Num(token) =>
      assert '\\' !in token;
      UnescapePlain(token, rest);
    case Str(s) => UnescapeQuoted(s, rest);
    case Arr(items) => UnescapeWrapped("[", PrintItems(true, items), PrintItems(false, items), "]", rest) by {
      UnescapePrintedItems(items, "]" + rest);
    }
    case Obj(members) => UnescapeWrapped("{", PrintMembers(true, members), PrintMembers(false, members), "}", rest) by {
      UnescapePrintedMembers(members, "}" + rest);
    }
  }

  lemma {:induction false} UnescapeWrapped(open: string, escaped: string, raw: string, close: string, rest: string)
    requires '\\' !in open && '\\' !in close
    requires Unescape(escaped + (close + rest)) == raw + Unescape(close + rest)
    ensures Unescape(open + escaped + close + rest) == open + raw + close + Unescape(rest)
  {
    Regroup(open, escaped, close, rest);
    Regroup(open, raw, close, Unescape(rest));
    UnescapePlain(open, escaped + (close + rest));
    UnescapePlain(close, rest);
  }

  /** One list element, a comma and the rest of the list. */
  lemma UnescapeCons(first: string, raw: string, tail: string, rawTail: string, rest: string)
    requires Unescape(first + ("," + (tail + rest))) == raw + Unescape("," + (tail + rest))
    requires Unescape(tail + rest) == rawTail + Unescape(rest)
    ensures Unescape(first + "," + tail + rest) == raw + "," + rawTail + Unescape(rest)
  {
    Regroup(first, ",", tail, rest);
    Regroup(raw, ",", rawTail, Unescape(rest));
    UnescapePlain(",", tail + rest);
  }

  lemma {:induction false} UnescapePrintedItems(items: seq<Tree>, rest: string)
    requires forall x :: x in items ==> WellFormed(x)
    ensures Unescape(PrintItems(true, items) + rest) == PrintItems(false, items) + Unescape(rest)
    decreases items, 0
  {
    if |items| == 0 {
      assert PrintItems(true, items) + rest == rest;
    } else if |items| == 1 {
      UnescapePrinted(items[0], rest);
    } else {
      var tail := PrintItems(true, items[1..]);
      UnescapePrinted(items[0], "," + (tail + rest));
      UnescapePrintedItems(items[1..], rest);
      UnescapeCons(Print(true, items[0]), Print(false, items[0]), tail, PrintItems(false, items[1..]), rest);
    }
  }

  lemma {:induction false} UnescapePrintedMember(m: Member, rest: string)
    requires WellFormed(m.value)
    ensures Unescape(PrintMember(true, m) + rest) == PrintMember(false, m) + Unescape(rest)
    decreases m, 0
  {
    var value := Print(true, m.value);
    UnescapeQuoted(m.key, ":" + (value + rest));
    UnescapePlain(":", value + rest);
    UnescapePrinted(m.value, rest);
    Regroup(Quote(true, m.key), ":", value, rest);
    Regroup(Quote(false, m.key), ":", Print(false, m.value), Unescape(rest));
  }

  lemma {:induction false} UnescapePrintedMembers(members: seq<Member>, rest: string)
    requires forall m :: m in members ==> WellFormed(m.value)
    ensures Unescape(PrintMembers(true, members) + rest) == PrintMembers(false, members) + Unescape(rest)
    decreases members, 0
  {
    if |members| == 0 {
      assert PrintMembers(true, members) + rest == rest;
    } else if |members| == 1 {
      UnescapePrintedMember(members[0], rest);
    } else {
      var tail := PrintMembers(true, members[1..]);
      UnescapePrintedMember(members[0], "," + (tail + rest));
      UnescapePrintedMembers(members[1..], rest);
      UnescapeCons(PrintMember(true, members[0]), PrintMember(false, members[0]),
                   tail, PrintMembers(false, members[1..]), rest);
    }
  }

  /** Rewriting is exact on strings: the separators come out raw, everything
      else, including an escaped backslash before the text u2028, stays. */
  lemma {:induction false} UnescapeIsExact(s: string)
    ensures Unescape(Escape(true, s)) == Escape(false, s)
  {
    UnescapeEscaped(s, "");
    assert Escape(true, s) + "" == Escape(true, s);
    assert Escape(false, s) + "" == Escape(false, s);
  }

  /** Rewriting is exact on whole documents. */
  lemma UnescapeDocument(t: Tree)
    requires WellFormed(t)
    ensures Unescape(Print(true, t)) == Print(false, t)
  {
    UnescapePrinted(t, "");
    assert Print(true, t) + "" == Print(true, t);
    assert Print(false, t) + "" == Print(false, t);
  }

  // ----- on arbitrary text

  predicate Plain(c: char) {
    c != '\\' && c != LS && c != PS
  }

  /** Leading characters that no rewrite produces come from the input. */
  lemma {:induction false} PlainFrontKept(t: string, n: nat)
    requires n <= |Unescape(t)|
    requires forall i :: 0 <= i < n ==> Plain(Unescape(t)[i])
    ensures n <= |t| && forall i :: 0 <= i < n ==> t[i] == Unescape(t)[i]
  {
    if n > 0 {
      assert Plain(Unescape(t)[0]);
      assert forall i :: 0 <= i < n - 1 ==> Unescape(t[1..])[i] == Unescape(t)[i + 1];
      PlainFrontKept(t[1..], n - 1);
      assert forall i :: 1 <= i < n ==> t[i] == t[1..][i - 1];
    }
  }

  lemma {:induction false} UnescapeIdempotent(t: string)
    ensures Unescape(Unescape(t)) == Unescape(t)
  {
    if t == "" {
    } else if t[0] != '\\' {
      UnescapeIdempotent(t[1..]);
      UnescapePlain([t[0]], Unescape(t[1..]));
    } else if SeparatorEscape(t).Some? {
      UnescapeIdempotent(t[6..]);
      UnescapePlain([SeparatorEscape(t).value], Unescape(t[6..]));
    } else if |t| > 1 {
      UnescapeIdempotent(t[2..]);
      NoNewEscape(t);
      var again := t[..2] + Unescape(t[2..]);
      assert again[..2] == t[..2] && again[2..] == Unescape(t[2..]);
    }
  }

  /** Rewriting makes no separator escape that was not there before. */
  lemma NoNewEscape(t: string)
    requires |t| > 1
    ensures var again := t[..2] + Unescape(t[2..]);
            SeparatorEscape(again).Some? ==> SeparatorEscape(t) == SeparatorEscape(again)
  {
    var again := t[..2] + Unescape(t[2..]);
    if SeparatorEscape(again).Some? {
      assert forall k :: 2 <= k < 6 ==> again[k] == Unescape(t[2..])[k - 2];
      PlainFrontKept(t[2..], 4);
      assert forall k :: 2 <= k < 6 ==> t[k] == t[2..][k - 2];
    }
  }

  /** The front of a text that an escape sequence occupies survives rewriting,
      unless it is one of the two separator escapes. */
  lemma UnescapeKeepsEscape(s: string)
    requires ReadEscape(s).Some?
    ensures var u := ReadEscape(s).value;
            if SeparatorEscape(s).Some? then u == Unit(SeparatorEscape(s).value, 6)
            else Unescape(s) == s[..u.used] + Unescape(s[u.used..])
  {
    if SeparatorEscape(s).Some? {
      SeparatorReads(s);
    } else if s[1] == 'u' {
      UnescapeUnicode(s);
      assert ReadEscape(s) == ReadUnicode(s);
    } else {
      UnescapePair(s);
    }
  }

  lemma UnescapePair(s: string)
    requires ReadEscape(s).Some? && s[1] != 'u'
    ensures ReadEscape(s).value.used == 2
    ensures Unescape(s) == s[..2] + Unescape(s[2..])
  {
  }

  lemma {:induction false} UnescapeUnicode(s: string)
    requires |s| >= 2 && s[0] == '\\' && s[1] == 'u' && ReadUnicode(s).Some? && SeparatorEscape(s) == None
    ensures var n := ReadUnicode(s).value.used;
            Unescape(s) == s[..n] + Unescape(s[n..])
  {
    UnescapeHexEscape(s);
    if ReadUnicode(s).value.used == 12 {
      UnescapeHexPair(s);
    }
  }

  lemma SeparatorReads(s: string)
    requires SeparatorEscape(s).Some?
    ensures ReadEscape(s) == Some(Unit(SeparatorEscape(s).value, 6))
  {
    var t := s[2..];
    assert t[0] == '2' && t[1] == '0' && t[2] == '2' && t[3] == s[5];
    assert Hex4(t) == Some(SeparatorEscape(s).value as int);
  }

  lemma {:induction false} UnescapeHexPair(s: string)
    requires |s| >= 12 && s[6] == '\\' && s[7] == 'u'
    requires Hex4(s[8..]).Some? && Hex4(s[8..]).value >= 0xDC00
    requires Unescape(s) == s[..6] + Unescape(s[6..])
    ensures Unescape(s) == s[..12] + Unescape(s[12..])
  {
    var low := s[6..];
    assert low[2..] == s[8..];
    assert SeparatorEscape(low) == None;
    UnescapeHexEscape(low);
    assert low[6..] == s[12..] && s[..12] == s[..6] + low[..6];
    Associate(s[..6], low[..6], Unescape(s[12..]));
  }

  lemma {:induction false} UnescapeHexEscape(s: string)
    requires |s| >= 6 && s[0] == '\\' && s[1] == 'u' && Hex4(s[2..]).Some?
    requires SeparatorEscape(s) == None
    ensures Unescape(s) == s[..6] + Unescape(s[6..])
  {
    var t := s[2..];
    HexDigitsArePlain(t);
    UnescapePlain(t[..4], t[4..]);
    assert t[..4] + t[4..] == t && t[4..] == s[6..] && s[..6] == s[..2] + t[..4];
    Associate(s[..2], t[..4], Unescape(s[6..]));
  }

  lemma HexDigitsArePlain(t: string)
    requires Hex4(t).Some?
    ensures '\\' !in t[..4]
  {
  }

  // ----- rewriting preserves what a JSON text means

  /** Escapes read the same before and after the text behind them is rewritten. */
  lemma EscapeReadsItsFront(s: string, rest: string)
    requires ReadEscape(s).Some?
    ensures ReadEscape(s[..ReadEscape(s).value.used] + rest) == ReadEscape(s)
  {
    var u := ReadEscape(s).value;
    var t := s[..u.used] + rest;
    assert forall k :: 0 <= k < u.used ==> t[k] == s[k];
    if u.used >= 6 {
      Hex4Front(t[2..], s[2..]);
      if u.used == 12 {
        Hex4Front(t[8..], s[8..]);
      }
    }
  }

  lemma Hex4Front(a: string, b: string)
    requires |a| >= 4 && |b| >= 4 && forall k :: 0 <= k < 4 ==> a[k] == b[k]
    ensures Hex4(a) == Hex4(b)
  {
  }

  lemma {:induction false} StringMeaning(s: string)
    requires ReadString(s).Some?
    ensures ReadString(Unescape(s)) == Some(Parsed(ReadString(s).value.value, Unescape(ReadString(s).value.rest)))
    decreases |s|
  {
    if s[0] == '"' {
      UnescapePlain([s[0]], s[1..]);
    } else if s[0] == '\\' {
      var u := ReadEscape(s).value;
      StringMeaning(s[u.used..]);
      UnescapeKeepsEscape(s);
      var tail := Unescape(s[u.used..]);
      if SeparatorEscape(s).Some? {
        assert Unescape(s) == [u.c] + tail;
      } else {
        EscapeReadsItsFront(s, tail);
        assert Unescape(s)[u.used..] == tail;
      }
    } else {
      UnescapePlain([s[0]], s[1..]);
      StringMeaning(s[1..]);
    }
  }

  /** For every text the parser accepts, rewriting leaves the parsed document unchanged. */
  lemma DocumentMeaning(s: string)
    requires Parse(s).Some?
    ensures Parse(Unescape(s)) == Parse(s)
  {
    ValueMeaning(s);
  }

  lemma {:induction false} ValueMeaning(s: string)
    requires ParseValue(s).Some?
    ensures ParseValue(Unescape(s)) == Some(Parsed(ParseValue(s).value.value, Unescape(ParseValue(s).value.rest)))
    decreases |s|, 1
  {
    var body := s[1..];
    UnescapePlain([s[0]], body);
    assert s == [s[0]] + body;
    if s[0] == '"' {
      StringMeaning(body);
      StepString(Unescape(body), ReadString(body).value.value, Unescape(ReadString(body).value.rest));
    } else if s[0] == '[' {
      if StartsWith(s, "[]") {
        UnescapePlain(s[..2], s[2..]);
        assert s == s[..2] + s[2..];
        StepEmpty(Unescape(s[2..]));
      } else {
        ItemsMeaning(body);
        var p := ParseItems(body).value;
        ValueStart(body);
        StepArray(Unescape(body), p.value, Unescape(p.rest));
      }
    } else if s[0] == '{' {
      if StartsWith(s, "{}") {
        UnescapePlain(s[..2], s[2..]);
        assert s == s[..2] + s[2..];
        StepEmpty(Unescape(s[2..]));
      } else {
        MembersMeaning(body);
        var p := ParseMembers(body).value;
        UnescapePlain([body[0]], body[1..]);
        assert body == [body[0]] + body[1..];
        StepObject(Unescape(body), p.value, Unescape(p.rest));
      }
    } else if StartsWith(s, "null") || StartsWith(s, "true") {
      assert s == s[..4] + s[4..];
      UnescapePlain(s[..4], s[4..]);
      StepLiteral(Unescape(s[4..]));
    } else if StartsWith(s, "false") {
      assert s == s[..5] + s[5..];
      UnescapePlain(s[..5], s[5..]);
      StepLiteral(Unescape(s[5..]));
    } else {
      NumberMeaning(s);
    }
  }

  /** A value that starts a list does not start with a backslash, so its first character stays first. */
  lemma ValueStart(s: string)
    requires ParseValue(s).Some?
    ensures s != "" && Unescape(s) != "" && Unescape(s)[0] == s[0]
  {
    UnescapePlain([s[0]], s[1..]);
    assert s == [s[0]] + s[1..];
  }

  lemma NumberMeaning(s: string)
    requires s != "" && (IsDigit(s[0]) || s[0] == '-')
    ensures var n := NumSpan(s);
            ParseValue(Unescape(s)) == Some(Parsed(Num(s[..n]), Unescape(s[n..])))
  {
    var n := NumSpan(s);
    var token := s[..n];
    assert s == token + s[n..];
    assert '\\' !in token;
    UnescapePlain(token, s[n..]);
    assert token[0] == s[0];
    if s[n..] != "" {
      FirstCharacter(s[n..]);
    }
    StepNumber(token, Unescape(s[n..]));
  }

  lemma FirstCharacter(t: string)
    requires t != ""
    ensures Unescape(t) != "" && (Unescape(t)[0] == t[0] || Unescape(t)[0] in [LS, PS])
  {
  }

  lemma {:induction false} ItemsMeaning(s: string)
    requires ParseItems(s).Some?
    ensures ParseItems(Unescape(s)) == Some(Parsed(ParseItems(s).value.value, Unescape(ParseItems(s).value.rest)))
    decreases |s|, 2
  {
    ValueMeaning(s);
    var p := ParseValue(s).value;
    UnescapePlain([p.rest[0]], p.rest[1..]);
    assert p.rest == [p.rest[0]] + p.rest[1..];
    if p.rest[0] == ']' {
      StepLastItem(Unescape(s), p.value, Unescape(p.rest[1..]));
    } else {
      ItemsMeaning(p.rest[1..]);
      var q := ParseItems(p.rest[1..]).value;
      StepItem(Unescape(s), p.value, Unescape(p.rest[1..]), q.value, Unescape(q.rest));
    }
  }

  lemma {:induction false} MemberMeaning(s: string)
    requires ParseMember(s).Some?
    ensures ParseMember(Unescape(s)) == Some(Parsed(ParseMember(s).value.value, Unescape(ParseMember(s).value.rest)))
    decreases |s|, 2
  {
    var body := s[1..];
    UnescapePlain([s[0]], body);
    assert s == [s[0]] + body;
    StringMeaning(body);
    var k := ReadString(body).value;
    var tail := k.rest[1..];
    UnescapePlain([k.rest[0]], tail);
    assert k.rest == [k.rest[0]] + tail;
    ValueMeaning(tail);
    var v := ParseValue(tail).value;
    StepKeyValue(Unescape(body), k.value, Unescape(tail), v.value, Unescape(v.rest));
  }

  lemma {:induction false} MembersMeaning(s: string)
    requires ParseMembers(s).Some?
    ensures ParseMembers(Unescape(s)) == Some(Parsed(ParseMembers(s).value.value, Unescape(ParseMembers(s).value.rest)))
    decreases |s|, 3
  {
    MemberMeaning(s);
    var p := ParseMember(s).value;
    UnescapePlain([p.rest[0]], p.rest[1..]);
    assert p.rest == [p.rest[0]] + p.rest[1..];
    if p.rest[0] == '}' {
      StepLastMember(Unescape(s), p.value, Unescape(p.rest[1..]));
    } else {
      MembersMeaning(p.rest[1..]);
      var q := ParseMembers(p.rest[1..]).value;
      StepMember(Unescape(s), p.value, Unescape(p.rest[1..]), q.value, Unescape(q.rest));
    }
  }
}
