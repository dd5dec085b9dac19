/** Compact JSON text: the escaper, the printer and a parser that undoes them. */
module Json {
  import opened Text

  // Object members are kept in order here, so key order is visible in the text.

  datatype Tree =
    | Null
    | Bool(b: bool)
    | Num(token: string)
    | Str(s: string)
    | Arr(items: seq<Tree>)
    | Obj(members: seq<Member>)

  datatype Member = Member(key: string, value: Tree)

  const LS: char := '\U{2028}'
  const PS: char := '\U{2029}'

  function HexChar(n: nat): char
    requires n < 16
  {
    if n < 10 then ('0' as int + n) as char else ('a' as int + n - 10) as char
  }

  predicate IsNumChar(c: char) {
    IsDigit(c) || c == '-' || c == '+' || c == '.' || c == 'e' || c == 'E'
  }

  /** Number tokens are opaque, but they start with a digit or a sign and use the JSON number alphabet. */
  predicate NumToken(t: string) {
    t != "" && (IsDigit(t[0]) || t[0] == '-') && forall i :: 0 <= i < |t| ==> IsNumChar(t[i])
  }

  predicate WellFormed(t: Tree) {
    match t
    case Num(token) => NumToken(token)
    case Arr(items) => forall x :: x in items ==> WellFormed(x)
    case Obj(members) => forall m :: m in members ==> WellFormed(m.value)
    case _ => true
  }

  // ----- printing

  /** One character inside a string literal. With `seps` the line and paragraph
      separators are escaped as well, as Go's encoding/json does. */
  function EscapeChar(seps: bool, c: char): (e: string)
    ensures e != ""
  {
    if c == '"' then "\\\""
    else if c == '\\' then "\\\\"
    else if c == '\U{8}' then "\\b"
    else if c == '\U{C}' then "\\f"
    else if c == '\n' then "\\n"
    else if c == '\r' then "\\r"
    else if c == '\t' then "\\t"
    else if c < ' ' then "\\u00" + [HexChar(c as int / 16), HexChar(c as int % 16)]
    else if seps && c == LS then "\\u2028"
    else if seps && c == PS then "\\u2029"
    else [c]
  }

  function Escape(seps: bool, s: string): string {
    if s == "" then "" else EscapeChar(seps, s[0]) + Escape(seps, s[1..])
  }

  function Quote(seps: bool, s: string): string {
    "\"" + Escape(seps, s) + "\""
  }

  function Print(seps: bool, t: Tree): string
    decreases t, 1
  {
    match t
    case Null => "null"
    case Bool(b) => if b then "true" else "false"
    case Num(token) => token
    case Str(s) => Quote(seps, s)
    case Arr(items) => "[" + PrintItems(seps, items) + "]"
    case Obj(members) => "{" + PrintMembers(seps, members) + "}"
  }

  function PrintItems(seps: bool, items: seq<Tree>): string
    decreases items, 0
  {
    if |items| == 0 then ""
    else if |items| == 1 then Print(seps, items[0])
    else Print(seps, items[0]) + "," + PrintItems(seps, items[1..])
  }

  function PrintMember(seps: bool, m: Member): string
    decreases m, 0
  {
    Quote(seps, m.key) + ":" + Print(seps, m.value)
  }

  function PrintMembers(seps: bool, members: seq<Member>): string
    decreases members, 0
  {
    if |members| == 0 then ""
    else if |members| == 1 then PrintMember(seps, members[0])
    else PrintMember(seps, members[0]) + "," + PrintMembers(seps, members[1..])
  }

  // ----- parsing

  function HexValue(c: char): (v: Option<int>)
    ensures v.Some? ==> 0 <= v.value < 16
  {
    if '0' <= c <= '9' then Some(c as int - '0' as int)
    else if 'a' <= c <= 'f' then Some(c as int - 'a' as int + 10)
    else if 'A' <= c <= 'F' then Some(c as int - 'A' as int + 10)
    else None
  }

  function Hex4(s: string): (v: Option<int>)
    ensures v.Some? ==> 0 <= v.value < 0x10000 && |s| >= 4
  {
    if |s| < 4 then None
    else
      match (HexValue(s[0]), HexValue(s[1]), HexValue(s[2]), HexValue(s[3]))
      case (Some(a), Some(b), Some(c), Some(d)) => Some(((a * 16 + b) * 16 + c) * 16 + d)
      case _ => None
  }

  datatype Unit = Unit(c: char, used: nat)

  /** The escape sequence at the front of `s`, by section 7 of RFC 8259: the
      character it stands for and its length. A surrogate escape without its partner
      stands for no character and is not read. */
  function ReadEscape(s: string): (r: Option<Unit>)
    ensures r.Some? ==> 2 <= r.value.used <= |s|
  {
    if |s| < 2 || s[0] != '\\' then None
    else
      match s[1]
      case '"' => Some(Unit('"', 2))
      case '\\' => Some(Unit('\\', 2))
      case '/' => Some(Unit('/', 2))
      case 'b' => Some(Unit('\U{8}', 2))
      case 'f' => Some(Unit('\U{C}', 2))
      case 'n' => Some(Unit('\n', 2))
      case 'r' => Some(Unit('\r', 2))
      case 't' => Some(Unit('\t', 2))
      case 'u' => ReadUnicode(s)
      case _ => None
  }

  function ReadUnicode(s: string): (r: Option<Unit>)
    requires |s| >= 2
    ensures r.Some? ==> 6 <= r.value.used <= |s|
  {
    match Hex4(s[2..])
    case None => None
    case Some(hi) =>
      if hi < 0xD800 || 0xE000 <= hi then Some(Unit(hi as char, 6))
      else if hi < 0xDC00 && |s| >= 12 && s[6] == '\\' && s[7] == 'u' then
        match Hex4(s[8..])
        case None => None
        case Some(lo) =>
          if 0xDC00 <= lo < 0xE000
          then Some(Unit((0x10000 + (hi - 0xD800) * 0x400 + (lo - 0xDC00)) as char, 12))
          else None
      else None
  }

  datatype Parsed<+T> = Parsed(value: T, rest: string)

  /** Reads the characters of a string literal up to its closing quote. */
  function ReadString(s: string): (r: Option<Parsed<string>>)
    ensures r.Some? ==> |r.value.rest| < |s|
    decreases |s|
  {
    if s == "" || s[0] < ' ' then None
    else if s[0] == '"' then Some(Parsed("", s[1..]))
    else if s[0] == '\\' then
      match ReadEscape(s)
      case None => None
      case Some(u) => Prepend(u.c, ReadString(s[u.used..]))
    else Prepend(s[0], ReadString(s[1..]))
  }

  function Prepend(c: char, r: Option<Parsed<string>>): Option<Parsed<string>> {
    match r
    case None => None
    case Some(p) => Some(Parsed([c] + p.value, p.rest))
  }

  function NumSpan(s: string): (n: nat)
    ensures n <= |s|
    ensures forall i :: 0 <= i < n ==> IsNumChar(s[i])
    ensures n < |s| ==> !IsNumChar(s[n])
  {
    if s != "" && IsNumChar(s[0]) then 1 + NumSpan(s[1..]) else 0
  }

  function ParseValue(s: string): (r: Option<Parsed<Tree>>)
    ensures r.Some? ==> |r.value.rest| < |s|
    decreases |s|, 1
  {
    if s == "" then None
    else if s[0] == '"' then
      match ReadString(s[1..])
      case None => None
      case Some(p) => Some(Parsed(Str(p.value), p.rest))
    else if s[0] == '[' then
      if StartsWith(s, "[]") then Some(Parsed(Arr([]), s[2..]))
      else
        match ParseItems(s[1..])
        case None => None
        case Some(p) => Some(Parsed(Arr(p.value), p.rest))
    else if s[0] == '{' then
      if StartsWith(s, "{}") then Some(Parsed(Obj([]), s[2..]))
      else
        match ParseMembers(s[1..])
        case None => None
        case Some(p) => Some(Parsed(Obj(p.value), p.rest))
    else if StartsWith(s, "null") then Some(Parsed(Null, s[4..]))
    else if StartsWith(s, "true") then Some(Parsed(Bool(true), s[4..]))
    else if StartsWith(s, "false") then Some(Parsed(Bool(false), s[5..]))
    else if IsDigit(s[0]) || s[0] == '-' then
      var n := NumSpan(s);
      Some(Parsed(Num(s[..n]), s[n..]))
    else None
  }

  function ParseItems(s: string): (r: Option<Parsed<seq<Tree>>>)
    ensures r.Some? ==> |r.value.rest| < |s|
    decreases |s|, 2
  {
    match ParseValue(s)
    case None => None
    case Some(p) =>
      if p.rest == "" then None
      else if p.rest[0] == ']' then Some(Parsed([p.value], p.rest[1..]))
      else if p.rest[0] == ',' then
        match ParseItems(p.rest[1..])
        case None => None
        case Some(q) => Some(Parsed([p.value] + q.value, q.rest))
      else None
  }

  function ParseMember(s: string): (r: Option<Parsed<Member>>)
    ensures r.Some? ==> |r.value.rest| < |s|
    decreases |s|, 2
  {
    if s == "" || s[0] != '"' then None
    else
      match ReadString(s[1..])
      case None => None
      case Some(k) =>
        if k.rest == "" || k.rest[0] != ':' then None
        else
          match ParseValue(k.rest[1..])
          case None => None
          case Some(v) => Some(Parsed(Member(k.value, v.value), v.rest))
  }

  function ParseMembers(s: string): (r: Option<Parsed<seq<Member>>>)
    ensures r.Some? ==> |r.value.rest| < |s|
    decreases |s|, 3
  {
    match ParseMember(s)
    case None => None
    case Some(p) =>
      if p.rest == "" then None
      else if p.rest[0] == '}' then Some(Parsed([p.value], p.rest[1..]))
      else if p.rest[0] == ',' then
        match ParseMembers(p.rest[1..])
        case None => None
        case Some(q) => Some(Parsed([p.value] + q.value, q.rest))
      else None
  }

  /** A whole document: one value and nothing after it. The parser reads compact text, without
      white space between tokens, and takes number tokens as they come. */
  function Parse(s: string): Option<Tree> {
    match ParseValue(s)
    case Some(p) => if p.rest == "" then Some(p.value) else None
    case None => None
  }

  // ----- the parser undoes the printer

  lemma ReadEscapedChar(seps: bool, c: char, rest: string)
    ensures var e := EscapeChar(seps, c);
            e[0] != '"' && e[0] >= ' ' &&
            if e[0] == '\\' then ReadEscape(e + rest) == Some(Unit(c, |e|)) else e == [c]
  {
    var e := EscapeChar(seps, c);
    if |e| == 6 {
      var t := (e + rest)[2..];
      assert t[0] == e[2] && t[1] == e[3] && t[2] == e[4] && t[3] == e[5];
      if c < ' ' {
        var n := c as int;
        assert HexValue(HexChar(n / 16)) == Some(n / 16);
        assert HexValue(HexChar(n % 16)) == Some(n % 16);
        assert Hex4(t) == Some(n);
      } else {
        assert Hex4(t) == Some(c as int);
      }
    }
  }

  lemma {:induction false} ReadEscaped(seps: bool, s: string, rest: string)
    ensures ReadString(Escape(seps, s) + "\"" + rest) == Some(Parsed(s, rest))
  {
    var text := Escape(seps, s) + "\"" + rest;
    if s == "" {
      assert text[1..] == rest;
    } else {
      var e := EscapeChar(seps, s[0]);
      var tail := Escape(seps, s[1..]) + "\"" + rest;
      assert text == e + tail;
      assert text[|e|..] == tail;
      ReadEscapedChar(seps, s[0], tail);
      ReadEscaped(seps, s[1..], rest);
      assert [s[0]] + s[1..] == s;
    }
  }

  lemma ReadQuoted(seps: bool, s: string, rest: string)
    ensures exists body :: Quote(seps, s) + rest == "\"" + body && ReadString(body) == Some(Parsed(s, rest))
  {
    var body := Escape(seps, s) + "\"" + rest;
    ReadEscaped(seps, s, rest);
    assert Quote(seps, s) + rest == "\"" + body;
  }

  lemma {:induction false} NumSpanOf(t: string, rest: string)
    requires forall i :: 0 <= i < |t| ==> IsNumChar(t[i])
    requires rest == "" || !IsNumChar(rest[0])
    ensures NumSpan(t + rest) == |t|
  {
    if t == "" {
      assert t + rest == rest;
    } else {
      NumSpanOf(t[1..], rest);
      assert (t + rest)[1..] == t[1..] + rest;
    }
  }

  /** What a printed value can start with: never a closing bracket or a separator. */
  lemma PrintStart(seps: bool, t: Tree)
    requires WellFormed(t)
    ensures Print(seps, t) != "" && Print(seps, t)[0] !in "]},:"
  {
  }

  // One step of the parser each, on arbitrary text.

  lemma StepString(body: string, s: string, rest: string)
    requires ReadString(body) == Some(Parsed(s, rest))
    ensures ParseValue("\"" + body) == Some(Parsed(Str(s), rest))
  {
    assert ("\"" + body)[1..] == body;
  }

  lemma {:induction false} StepArray(body: string, items: seq<Tree>, rest: string)
    requires body != "" && body[0] != ']'
    requires ParseItems(body) == Some(Parsed(items, rest))
    ensures ParseValue("[" + body) == Some(Parsed(Arr(items), rest))
  {
    assert ("[" + body)[1..] == body;
    assert ("[" + body)[..2][1] == body[0];
  }

  lemma {:induction false} StepObject(body: string, members: seq<Member>, rest: string)
    requires body != "" && body[0] != '}'
    requires ParseMembers(body) == Some(Parsed(members, rest))
    ensures ParseValue("{" + body) == Some(Parsed(Obj(members), rest))
  {
    assert ("{" + body)[1..] == body;
    assert ("{" + body)[..2][1] == body[0];
  }

  lemma StepEmpty(rest: string)
    ensures ParseValue("[]" + rest) == Some(Parsed(Arr([]), rest))
    ensures ParseValue("{}" + rest) == Some(Parsed(Obj([]), rest))
  {
    assert ("[]" + rest)[..2] == "[]" && ("[]" + rest)[2..] == rest;
    assert ("{}" + rest)[..2] == "{}" && ("{}" + rest)[2..] == rest;
  }

  lemma StepLiteral(rest: string)
    ensures ParseValue("null" + rest) == Some(Parsed(Null, rest))
    ensures ParseValue("true" + rest) == Some(Parsed(Bool(true), rest))
    ensures ParseValue("false" + rest) == Some(Parsed(Bool(false), rest))
  {
    assert ("null" + rest)[..4] == "null" && ("null" + rest)[4..] == rest;
    assert ("true" + rest)[..4] == "true" && ("true" + rest)[4..] == rest;
    assert ("true" + rest)[0] == 't';
    assert ("false" + rest)[..5] == "false" && ("false" + rest)[5..] == rest;
    assert ("false" + rest)[0] == 'f';
  }

  lemma {:induction false} StepNumber(token: string, rest: string)
    requires NumToken(token) && (rest == "" || !IsNumChar(rest[0]))
    ensures ParseValue(token + rest) == Some(Parsed(Num(token), rest))
  {
    var text := token + rest;
    NumSpanOf(token, rest);
    assert text[0] == token[0];
    assert text[..|token|] == token && text[|token|..] == rest;
    assert !StartsWith(text, "null") && !StartsWith(text, "true") && !StartsWith(text, "false") by {
      assert "null"[0] == 'n' && "true"[0] == 't' && "false"[0] == 'f';
    }
  }

  lemma StepItem(text: string, x: Tree, more: string, xs: seq<Tree>, rest: string)
    requires ParseValue(text) == Some(Parsed(x, "," + more))
    requires ParseItems(more) == Some(Parsed(xs, rest))
    ensures ParseItems(text) == Some(Parsed([x] + xs, rest))
  {
    assert ("," + more)[1..] == more;
  }

  lemma StepLastItem(text: string, x: Tree, rest: string)
    requires ParseValue(text) == Some(Parsed(x, "]" + rest))
    ensures ParseItems(text) == Some(Parsed([x], rest))
  {
    assert ("]" + rest)[1..] == rest;
  }

  lemma StepMember(text: string, m: Member, more: string, ms: seq<Member>, rest: string)
    requires ParseMember(text) == Some(Parsed(m, "," + more))
    requires ParseMembers(more) == Some(Parsed(ms, rest))
    ensures ParseMembers(text) == Some(Parsed([m] + ms, rest))
  {
    assert ("," + more)[1..] == more;
  }

  lemma StepLastMember(text: string, m: Member, rest: string)
    requires ParseMember(text) == Some(Parsed(m, "}" + rest))
    ensures ParseMembers(text) == Some(Parsed([m], rest))
  {
    assert ("}" + rest)[1..] == rest;
  }

  lemma StepKeyValue(body: string, k: string, tail: string, v: Tree, rest: string)
    requires ReadString(body) == Some(Parsed(k, ":" + tail))
    requires ParseValue(tail) == Some(Parsed(v, rest))
    ensures ParseMember("\"" + body) == Some(Parsed(Member(k, v), rest))
  {
    assert ("\"" + body)[1..] == body;
    assert (":" + tail)[1..] == tail;
  }

  lemma {:induction false} ParsePrint(seps: bool, t: Tree, rest: string)
    requires WellFormed(t)
    requires rest == "" || !IsNumChar(rest[0])
    ensures ParseValue(Print(seps, t) + rest) == Some(Parsed(t, rest))
    decreases t, 1
  {
    match t
    case Null => StepLiteral(rest);
    case Bool(b) => StepLiteral(rest);
    case Num(token) => StepNumber(token, rest);
    case Str(s) => ParsePrintStr(seps, s, rest);
    case Arr(items) => if items == [] { StepEmpty(rest); } else { ParsePrintArr(seps, items, rest); }
    case Obj(members) => if members == [] { StepEmpty(rest); } else { ParsePrintObj(seps, members, rest); }
  }

  lemma ParsePrintStr(seps: bool, s: string, rest: string)
    ensures ParseValue(Quote(seps, s) + rest) == Some(Parsed(Str(s), rest))
  {
    ReadQuoted(seps, s, rest);
    var body :| Quote(seps, s) + rest == "\"" + body && ReadString(body) == Some(Parsed(s, rest));
    StepString(body, s, rest);
  }

  lemma {:induction false} ParsePrintArr(seps: bool, items: seq<Tree>, rest: string)
    requires items != [] && forall x :: x in items ==> WellFormed(x)
    ensures ParseValue("[" + PrintItems(seps, items) + "]" + rest) == Some(Parsed(Arr(items), rest))
    decreases items, 1
  {
    var inner := PrintItems(seps, items);
    var body := inner + ("]" + rest);
    ParsePrintItems(seps, items, rest);
    PrintStart(seps, items[0]);
    assert body[0] == Print(seps, items[0])[0];
    StepArray(body, items, rest);
    assert "[" + inner + "]" + rest == "[" + body;
  }

  lemma {:induction false} ParsePrintObj(seps: bool, members: seq<Member>, rest: string)
    requires members != [] && forall m :: m in members ==> WellFormed(m.value)
    ensures ParseValue("{" + PrintMembers(seps, members) + "}" + rest) == Some(Parsed(Obj(members), rest))
    decreases members, 1
  {
    var inner := PrintMembers(seps, members);
    var body := inner + ("}" + rest);
    ParsePrintMembers(seps, members, rest);
    assert PrintMember(seps, members[0])[0] == '"';
    assert body[0] == '"';
    StepObject(body, members, rest);
    assert "{" + inner + "}" + rest == "{" + body;
  }

  lemma {:induction false} ParsePrintItems(seps: bool, items: seq<Tree>, rest: string)
    requires items != [] && forall x :: x in items ==> WellFormed(x)
    ensures ParseItems(PrintItems(seps, items) + ("]" + rest)) == Some(Parsed(items, rest))
    decreases items, 0
  {
    var first := Print(seps, items[0]);
    var text := PrintItems(seps, items) + ("]" + rest);
    if |items| == 1 {
      ParsePrint(seps, items[0], "]" + rest);
      assert text == first + ("]" + rest);
      StepLastItem(text, items[0], rest);
      assert items == [items[0]];
    } else {
      var inner := PrintItems(seps, items[1..]);
      var more := inner + ("]" + rest);
      ParsePrint(seps, items[0], "," + more);
      ParsePrintItems(seps, items[1..], rest);
      Regroup(first, ",", inner, "]" + rest);
      StepItem(text, items[0], more, items[1..], rest);
      assert [items[0]] + items[1..] == items;
    }
  }

  lemma {:induction false} ParsePrintMember(seps: bool, m: Member, rest: string)
    requires WellFormed(m.value)
    requires rest == "" || !IsNumChar(rest[0])
    ensures ParseMember(PrintMember(seps, m) + rest) == Some(Parsed(m, rest))
    decreases m, 0
  {
    var key, value := Quote(seps, m.key), Print(seps, m.value);
    ReadQuoted(seps, m.key, ":" + (value + rest));
    var tail := ":" + (value + rest);
    var body :| key + tail == "\"" + body && ReadString(body) == Some(Parsed(m.key, tail));
    ParsePrint(seps, m.value, rest);
    StepKeyValue(body, m.key, value + rest, m.value, rest);
    Regroup(key, ":", value, rest);
  }

  lemma Regroup(a: string, b: string, c: string, d: string)
    ensures a + b + c + d == a + (b + (c + d))
  {
  }

  lemma {:induction false} ParsePrintMembers(seps: bool, members: seq<Member>, rest: string)
    requires members != [] && forall m :: m in members ==> WellFormed(m.value)
    ensures ParseMembers(PrintMembers(seps, members) + ("}" + rest)) == Some(Parsed(members, rest))
    decreases members, 0
  {
    var first := PrintMember(seps, members[0]);
    var text := PrintMembers(seps, members) + ("}" + rest);
    if |members| == 1 {
      ParsePrintMember(seps, members[0], "}" + rest);
      assert text == first + ("}" + rest);
      StepLastMember(text, members[0], rest);
      assert members == [members[0]];
    } else {
      var inner := PrintMembers(seps, members[1..]);
      var more := inner + ("}" + rest);
      ParsePrintMember(seps, members[0], "," + more);
      ParsePrintMembers(seps, members[1..], rest);
      Regroup(first, ",", inner, "}" + rest);
      StepMember(text, members[0], more, members[1..], rest);
      assert [members[0]] + members[1..] == members;
    }
  }

  /** The explicit inverse: a document printed with either escaper parses back to itself. */
  lemma ParseInvertsPrint(seps: bool, t: Tree)
    requires WellFormed(t)
    ensures Parse(Print(seps, t)) == Some(t)
  {
    ParsePrint(seps, t, "");
    assert Print(seps, t) + "" == Print(seps, t);
  }

  lemma PrintInjective(seps: bool, a: Tree, b: Tree)
    requires WellFormed(a) && WellFormed(b)
    requires Print(seps, a) == Print(seps, b)
    ensures a == b
  {
    ParseInvertsPrint(seps, a);
    ParseInvertsPrint(seps, b);
  }
}
