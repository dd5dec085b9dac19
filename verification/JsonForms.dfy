/** The printed JSON and hexadecimal forms, written out. */
module JsonForms {
  import opened Text
  import opened Json
  import Hex
  import Quoting

  const DIGITS := "0123456789abcdef"

  /** What stands behind the backslash for the characters that have a letter of their own. */
  function LetterOf(c: char): string {
    match c
    case '"' => "\""
    case '\\' => "\\"
    case '\U{8}' => "b"
    case '\U{C}' => "f"
    case '\n' => "n"
    case '\r' => "r"
    case '\t' => "t"
    case _ => ""
  }

  /** A literal is the characters between quotes, each as itself, by its letter, or by four hex digits. */
  lemma QuotedForm(seps: bool, s: string) returns (parts: seq<string>)
    ensures Quote(seps, s) == "\"" + Concat(parts) + "\"" && |parts| == |s|
    ensures forall i :: 0 <= i < |s| ==> parts[i] == EscapedForm(seps, s[i])
  {
    parts := seq(|s|, i requires 0 <= i < |s| => EscapedForm(seps, s[i]));
    EscapedParts(seps, s, parts);
  }

  function EscapedForm(seps: bool, c: char): string {
    var n := c as int;
    if LetterOf(c) != "" then "\\" + LetterOf(c)
    else if n < 32 then "\\u00" + [DIGITS[n / 16], DIGITS[n % 16]]
    else if seps && n == 0x2028 then "\\u2028"
    else if seps && n == 0x2029 then "\\u2029"
    else [c]
  }

  lemma HexCharIs(n: nat)
    requires n < 16
    ensures HexChar(n) == DIGITS[n]
  {}

  lemma EscapeCharIs(seps: bool, c: char)
    ensures EscapeChar(seps, c) == EscapedForm(seps, c)
  {
    if c < ' ' {
      HexCharIs(c as int / 16);
      HexCharIs(c as int % 16);
    }
  }

  lemma {:induction false} EscapedParts(seps: bool, s: string, parts: seq<string>)
    requires |parts| == |s| && forall i :: 0 <= i < |s| ==> parts[i] == EscapedForm(seps, s[i])
    ensures Escape(seps, s) == Concat(parts)
  {
    if s != "" {
      EscapeCharIs(seps, s[0]);
      EscapedParts(seps, s[1..], parts[1..]);
    }
  }

  /** An array is its items between brackets, an object its members between braces, with
      commas between them and no space. */
  lemma ItemsJoined(seps: bool, items: seq<Tree>, texts: seq<string>)
    requires |texts| == |items| && forall i :: 0 <= i < |items| ==> texts[i] == Print(seps, items[i])
    ensures Print(seps, Arr(items)) == "[" + Join(texts, ",") + "]"
  {
    PrintedItems(seps, items, texts);
  }

  lemma {:induction false} PrintedItems(seps: bool, items: seq<Tree>, texts: seq<string>)
    requires |texts| == |items| && forall i :: 0 <= i < |items| ==> texts[i] == Print(seps, items[i])
    ensures PrintItems(seps, items) == Join(texts, ",")
    decreases |items|
  {
    if |items| > 1 {
      PrintedItems(seps, items[1..], texts[1..]);
    }
  }

  lemma MembersJoined(seps: bool, members: seq<Member>, texts: seq<string>)
    requires |texts| == |members|
    requires forall i :: 0 <= i < |members| ==>
                           texts[i] == Quote(seps, members[i].key) + ":" + Print(seps, members[i].value)
    ensures Print(seps, Obj(members)) == "{" + Join(texts, ",") + "}"
  {
    PrintedMembers(seps, members, texts);
  }

  lemma {:induction false} PrintedMembers(seps: bool, members: seq<Member>, texts: seq<string>)
    requires |texts| == |members|
    requires forall i :: 0 <= i < |members| ==>
                           texts[i] == Quote(seps, members[i].key) + ":" + Print(seps, members[i].value)
    ensures PrintMembers(seps, members) == Join(texts, ",")
    decreases |members|
  {
    if members != [] {
      assert texts[0] == PrintMember(seps, members[0]);
      if |members| > 1 {
        PrintedMembers(seps, members[1..], texts[1..]);
      }
    }
  }

  /** Two digits for each byte, the high one first. */
  lemma {:induction false} HexSpelling(bytes: seq<Hex.Byte>, i: nat)
    requires i < |bytes|
    ensures |Hex.Encode(bytes)| == 2 * |bytes|
    ensures Hex.Encode(bytes)[2 * i] == DIGITS[bytes[i] / 16]
    ensures Hex.Encode(bytes)[2 * i + 1] == DIGITS[bytes[i] % 16]
  {
    Hex.DecodeEncode(bytes);
    if i == 0 {
      HexCharIs(bytes[0] / 16);
      HexCharIs(bytes[0] % 16);
    } else {
      HexSpelling(bytes[1..], i - 1);
      TwoFurther(Hex.Encode(bytes), Hex.Encode(bytes[1..]), i - 1);
    }
  }

  lemma TwoFurther(s: string, t: string, i: nat)
    requires |s| >= 2 && s[2..] == t && 2 * i + 1 < |t|
    ensures s[2 * (i + 1)] == t[2 * i] && s[2 * (i + 1) + 1] == t[2 * i + 1]
  {
  }

  // ----- Go's %q

  /** The number that hexadecimal digits denote. */
  function HexNumber(s: string): int {
    if s == "" then 0 else 16 * HexNumber(s[..|s| - 1]) + HexValue(s[|s| - 1]).GetOr(0)
  }

  /** Fixed-width numerals are read back, and their digits are the small ones. */
  lemma {:induction false} HexNumeral(n: nat, width: nat)
    requires n < Quoting.Pow16(width)
    ensures HexNumber(Quoting.HexDigits(n, width)) == n
    ensures forall c :: c in Quoting.HexDigits(n, width) ==> c in DIGITS
  {
    if width > 0 {
      var front := Quoting.HexDigits(n / 16, width - 1);
      HexNumeral(n / 16, width - 1);
      HexCharIs(n % 16);
      var s := front + [HexChar(n % 16)];
      assert s[..|s| - 1] == front && s[|s| - 1] == DIGITS[n % 16];
      Hex.DigitOf(n % 16);
    }
  }

  /** The seven controls with a letter; the quote, the backslash and printable characters come first. */
  function GoLetterOf(c: char): string {
    match c
    case '\U{7}' => "a"
    case '\U{8}' => "b"
    case '\U{B}' => "v"
    case '\U{C}' => "f"
    case '\n' => "n"
    case '\r' => "r"
    case '\t' => "t"
    case _ => ""
  }

  function GoForm(table: char -> bool, c: char): string {
    var n := c as int;
    if c == '"' || c == '\\' then "\\" + [c]
    else if 32 <= n < 127 || (n >= 128 && table(c)) then [c]
    else if GoLetterOf(c) != "" then "\\" + GoLetterOf(c)
    else if n < 128 then "\\x" + Quoting.HexDigits(n, 2)
    else if n < 0x10000 then "\\u" + Quoting.HexDigits(n, 4)
    else "\\U" + Quoting.HexDigits(n, 8)
  }

  lemma GoCharIs(table: char -> bool, c: char)
    ensures Quoting.EscapeChar(table, c) == GoForm(table, c)
  {}

  /** %q writes the characters between quotes, each in its form. */
  lemma {:induction false} GoQuotedForm(table: char -> bool, s: string, parts: seq<string>)
    requires |parts| == |s| && forall i :: 0 <= i < |s| ==> parts[i] == GoForm(table, s[i])
    ensures Quoting.GoQuote(table, s) == "\"" + (Concat(parts) + "\"")
  {
    GoInside(table, s, parts);
  }

  lemma {:induction false} GoInside(table: char -> bool, s: string, parts: seq<string>)
    requires |parts| == |s| && forall i :: 0 <= i < |s| ==> parts[i] == GoForm(table, s[i])
    ensures Quoting.Inside(table, s) == Concat(parts) + "\""
  {
    if s != "" {
      GoCharIs(table, s[0]);
      GoInside(table, s[1..], parts[1..]);
      Associate(parts[0], Concat(parts[1..]), "\"");
    }
  }
}
