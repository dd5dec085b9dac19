/** Go's %q beside JSON quoting: when they agree, and that %q is unambiguous. */
module Quoting {
  import opened Text
  import J = Json

  /** Which characters strconv.IsPrint accepts: a known range below U+0080, a table above. */
  predicate IsPrint(table: char -> bool, c: char) {
    if c < '\U{80}' then ' ' <= c <= '~' else table(c)
  }

  function HexDigits(n: nat, width: nat): (s: string)
    ensures |s| == width
  {
    if width == 0 then "" else HexDigits(n / 16, width - 1) + [J.HexChar(n % 16)]
  }

  /** One character inside the quotes of %q. */
  function EscapeChar(table: char -> bool, c: char): (e: string)
    ensures e != "" && e[0] != '"'
  {
    if c == '"' then "\\\""
    else if c == '\\' then "\\\\"
    else if IsPrint(table, c) then [c]
    else if c == '\U{7}' then "\\a"
    else if c == '\U{8}' then "\\b"
    else if c == '\U{C}' then "\\f"
    else if c == '\n' then "\\n"
    else if c == '\r' then "\\r"
    else if c == '\t' then "\\t"
    else if c == '\U{B}' then "\\v"
    else if c < ' ' || c == '\U{7F}' then "\\x" + HexDigits(c as int, 2)
    else if c < '\U{10000}' then "\\u" + HexDigits(c as int, 4)
    else "\\U" + HexDigits(c as int, 8)
  }

  /** The escaped characters and the closing quote. */
  function Inside(table: char -> bool, s: string): string {
    if s == "" then "\"" else EscapeChar(table, s[0]) + Inside(table, s[1..])
  }

  function GoQuote(table: char -> bool, s: string): string {
    "\"" + Inside(table, s)
  }

  // ----- texts that differ at some place

  /** The texts differ at a place both have; so neither begins the other. */
  predicate Diverge(a: string, b: string) {
    a != "" && b != "" && (a[0] != b[0] || Diverge(a[1..], b[1..]))
  }

  lemma {:induction false} DivergeOn(a: string, b: string, x: string, y: string)
    requires Diverge(a, b)
    ensures Diverge(a + x, b + y) && a + x != b + y && a != b
  {
    assert (a + x)[0] == a[0] && (b + y)[0] == b[0];
    if a[0] == b[0] {
      DivergeOn(a[1..], b[1..], x, y);
      assert (a + x)[1..] == a[1..] + x && (b + y)[1..] == b[1..] + y;
    }
  }

  lemma {:induction false} DivergeBehind(p: string, a: string, b: string)
    requires Diverge(a, b)
    ensures Diverge(p + a, p + b)
  {
    if p == "" {
      assert p + a == a && p + b == b;
    } else {
      DivergeBehind(p[1..], a, b);
      assert (p + a)[1..] == p[1..] + a && (p + b)[1..] == p[1..] + b;
    }
  }

  lemma {:induction false} SameLengthDiverge(a: string, b: string)
    requires |a| == |b| && a != b
    ensures Diverge(a, b)
  {
    assert a == [a[0]] + a[1..] && b == [b[0]] + b[1..];
    if a[0] == b[0] {
      SameLengthDiverge(a[1..], b[1..]);
    }
  }

  // ----- %q is unambiguous

  function Pow16(w: nat): nat {
    if w == 0 then 1 else 16 * Pow16(w - 1)
  }

  lemma {:induction false} HexDigitsDiffer(m: nat, n: nat, w: nat)
    requires m < Pow16(w) && n < Pow16(w) && m != n
    ensures HexDigits(m, w) != HexDigits(n, w)
  {
    if w > 0 {
      var a, b := HexDigits(m, w), HexDigits(n, w);
      assert a[..w - 1] == HexDigits(m / 16, w - 1) && b[..w - 1] == HexDigits(n / 16, w - 1);
      assert a[w - 1] == J.HexChar(m % 16) && b[w - 1] == J.HexChar(n % 16);
      if m / 16 != n / 16 {
        HexDigitsDiffer(m / 16, n / 16, w - 1);
      }
    }
  }

  lemma NumbersDiverge(m: nat, n: nat, w: nat)
    requires m < Pow16(w) && n < Pow16(w) && m != n
    ensures Diverge(HexDigits(m, w), HexDigits(n, w))
  {
    HexDigitsDiffer(m, n, w);
    SameLengthDiverge(HexDigits(m, w), HexDigits(n, w));
  }

  /** How a character is written: as itself, by a letter, or by a number of some width. */
  function Kind(table: char -> bool, c: char): (letter: char)
    ensures letter == EscapeChar(table, c)[if |EscapeChar(table, c)| == 1 then 0 else 1]
  {
    if c == '"' then '"'
    else if c == '\\' then '\\'
    else if IsPrint(table, c) then c
    else if c == '\U{7}' then 'a'
    else if c == '\U{8}' then 'b'
    else if c == '\U{C}' then 'f'
    else if c == '\n' then 'n'
    else if c == '\r' then 'r'
    else if c == '\t' then 't'
    else if c == '\U{B}' then 'v'
    else if c < ' ' || c == '\U{7F}' then 'x'
    else if c < '\U{10000}' then 'u'
    else 'U'
  }

  lemma CharsDiverge(table: char -> bool, c: char, d: char)
    requires c != d
    ensures Diverge(EscapeChar(table, c), EscapeChar(table, d))
  {
    var e, f := EscapeChar(table, c), EscapeChar(table, d);
    if |e| > 1 && |f| > 1 {
      assert e[0] == f[0] == '\\';
      if Kind(table, c) == Kind(table, d) {
        NumbersBehind(table, c, d);
      } else {
        assert e[1..][0] == Kind(table, c) && f[1..][0] == Kind(table, d);
      }
    }
  }

  lemma Pow16Values()
    ensures Pow16(2) == 0x100 && Pow16(4) == 0x1_0000 && Pow16(8) == 0x1_0000_0000
  {
    assert Pow16(1) == 16 && Pow16(3) == 0x1000 && Pow16(5) == 0x10_0000 && Pow16(6) == 0x100_0000;
    assert Pow16(7) == 0x1000_0000;
  }

  lemma NumbersBehind(table: char -> bool, c: char, d: char)
    requires c != d && |EscapeChar(table, c)| > 1 && |EscapeChar(table, d)| > 1
    requires Kind(table, c) == Kind(table, d)
    ensures Diverge(EscapeChar(table, c), EscapeChar(table, d))
  {
    var k := Kind(table, c);
    var w := if k == 'x' then 2 else if k == 'u' then 4 else 8;
    Pow16Values();
    NumbersDiverge(c as int, d as int, w);
    DivergeBehind(['\\', k], HexDigits(c as int, w), HexDigits(d as int, w));
    assert EscapeChar(table, c) == ['\\', k] + HexDigits(c as int, w);
    assert EscapeChar(table, d) == ['\\', k] + HexDigits(d as int, w);
  }

  lemma {:induction false} InsidesDiverge(table: char -> bool, s: string, t: string)
    requires s != t
    ensures Diverge(Inside(table, s), Inside(table, t))
  {
    if s != "" && t != "" {
      assert s == [s[0]] + s[1..] && t == [t[0]] + t[1..];
      if s[0] == t[0] {
        InsidesDiverge(table, s[1..], t[1..]);
        DivergeBehind(EscapeChar(table, s[0]), Inside(table, s[1..]), Inside(table, t[1..]));
      } else {
        CharsDiverge(table, s[0], t[0]);
        DivergeOn(EscapeChar(table, s[0]), EscapeChar(table, t[0]), Inside(table, s[1..]), Inside(table, t[1..]));
      }
    }
  }

  /** The quotings of different strings differ at a place both have. */
  lemma QuotesDiverge(table: char -> bool, s: string, t: string)
    requires s != t
    ensures Diverge(GoQuote(table, s), GoQuote(table, t))
  {
    InsidesDiverge(table, s, t);
    DivergeBehind("\"", Inside(table, s), Inside(table, t));
  }

  // ----- %q against JSON

  /** Printable characters and the five controls with a letter of their own in JSON. */
  predicate AlikeChar(table: char -> bool, c: char) {
    IsPrint(table, c) || c == '\U{8}' || c == '\U{C}' || c == '\n' || c == '\r' || c == '\t'
  }

  predicate QuotedAlike(table: char -> bool, s: string) {
    forall i :: 0 <= i < |s| ==> AlikeChar(table, s[i])
  }

  lemma CharsAlike(table: char -> bool, c: char)
    ensures if AlikeChar(table, c) then EscapeChar(table, c) == J.EscapeChar(false, c)
            else Diverge(EscapeChar(table, c), J.EscapeChar(false, c))
  {
    if !AlikeChar(table, c) {
      var e, j := EscapeChar(table, c), J.EscapeChar(false, c);
      assert e[0] == '\\';
      assert |j| > 1 ==> e[1..][0] != j[1..][0];
    }
  }

  lemma {:induction false} InsidesAlike(table: char -> bool, s: string)
    ensures if QuotedAlike(table, s) then Inside(table, s) == J.Escape(false, s) + "\""
            else Diverge(Inside(table, s), J.Escape(false, s) + "\"")
  {
    if s != "" {
      var c, rest := s[0], s[1..];
      CharsAlike(table, c);
      InsidesAlike(table, rest);
      assert QuotedAlike(table, s) <==> AlikeChar(table, c) && QuotedAlike(table, rest) by {
        assert forall i :: 0 <= i < |rest| ==> rest[i] == s[i + 1];
      }
      Associate(J.EscapeChar(false, c), J.Escape(false, rest), "\"");
      if !AlikeChar(table, c) {
        DivergeOn(EscapeChar(table, c), J.EscapeChar(false, c), Inside(table, rest), J.Escape(false, rest) + "\"");
      } else if !QuotedAlike(table, rest) {
        DivergeBehind(EscapeChar(table, c), Inside(table, rest), J.Escape(false, rest) + "\"");
      }
    }
  }

  /** Go and JSON quote a string alike exactly when all its characters are alike. */
  lemma QuotesAlike(table: char -> bool, s: string)
    ensures if QuotedAlike(table, s) then GoQuote(table, s) == J.Quote(false, s)
            else Diverge(GoQuote(table, s), J.Quote(false, s))
  {
    InsidesAlike(table, s);
    Associate("\"", J.Escape(false, s), "\"");
    if !QuotedAlike(table, s) {
      DivergeBehind("\"", Inside(table, s), J.Escape(false, s) + "\"");
    }
  }

  // ----- joined lists

  predicate IsEnd(c: char) {
    c == ',' || c == ']' || c == '}'
  }

  /** Whatever follows them in a list, two texts are equal or the lists differ here. */
  predicate Separate(x: string, y: string) {
    x == y || forall c, e :: IsEnd(c) && IsEnd(e) ==> Diverge(x + [c], y + [e])
  }

  lemma DivergingSeparate(x: string, y: string)
    requires x == y || Diverge(x, y)
    ensures Separate(x, y)
  {
    if x != y {
      forall c, e | IsEnd(c) && IsEnd(e) ensures Diverge(x + [c], y + [e]) {
        DivergeOn(x, y, [c], [e]);
      }
    }
  }

  predicate AllSeparate(xs: seq<string>, ys: seq<string>) {
    forall i :: 0 <= i < |xs| && i < |ys| ==> Separate(xs[i], ys[i])
  }

  predicate NoneEmpty(xs: seq<string>) {
    forall i :: 0 <= i < |xs| ==> xs[i] != "" && !IsEnd(xs[i][0])
  }

  /** The text behind the first element. */
  function Behind(xs: seq<string>, close: char): string
    requires xs != []
  {
    if |xs| == 1 then [close] else [','] + (Join(xs[1..], ",") + [close])
  }

  lemma JoinFirst(xs: seq<string>, close: char)
    requires xs != []
    ensures Join(xs, ",") + [close] == xs[0] + Behind(xs, close)
  {
    if |xs| > 1 {
      Associate(xs[0], ",", Join(xs[1..], ","));
      Associate(xs[0], "," + Join(xs[1..], ","), [close]);
      Associate(",", Join(xs[1..], ","), [close]);
      assert "," == [','];
    }
  }

  lemma Resume(x: string, behind: string)
    requires behind != ""
    ensures x + behind == (x + [behind[0]]) + behind[1..]
  {
    assert behind == [behind[0]] + behind[1..];
    Associate(x, [behind[0]], behind[1..]);
  }

  /** Different lists of separate texts, joined and closed, differ at a place both have. */
  lemma {:induction false} JoinsSeparate(xs: seq<string>, ys: seq<string>, close: char)
    requires AllSeparate(xs, ys) && NoneEmpty(xs) && NoneEmpty(ys) && close != ',' && IsEnd(close)
    ensures xs == ys || Diverge(Join(xs, ",") + [close], Join(ys, ",") + [close])
    decreases |xs|
  {
    if xs == [] || ys == [] {
      OneEmpty(xs, ys, close);
    } else {
      JoinFirst(xs, close);
      JoinFirst(ys, close);
      var u, v := Behind(xs, close), Behind(ys, close);
      assert Separate(xs[0], ys[0]);
      if xs[0] != ys[0] {
        Resume(xs[0], u);
        Resume(ys[0], v);
        DivergeOn(xs[0] + [u[0]], ys[0] + [v[0]], u[1..], v[1..]);
      } else {
        assert xs == [xs[0]] + xs[1..] && ys == [ys[0]] + ys[1..];
        if |xs| > 1 && |ys| > 1 {
          JoinsSeparate(xs[1..], ys[1..], close);
          if xs[1..] != ys[1..] {
            DivergeBehind([','], Join(xs[1..], ",") + [close], Join(ys[1..], ",") + [close]);
          }
        }
        if xs != ys {
          DivergeBehind(xs[0], u, v);
        }
      }
    }
  }

  lemma OneEmpty(xs: seq<string>, ys: seq<string>, close: char)
    requires (xs == [] || ys == []) && NoneEmpty(xs) && NoneEmpty(ys) && IsEnd(close)
    ensures xs == ys || Diverge(Join(xs, ",") + [close], Join(ys, ",") + [close])
  {
    if xs != [] {
      JoinFirst(xs, close);
    }
    if ys != [] {
      JoinFirst(ys, close);
    }
    assert Join([], ",") == "";
  }
}
