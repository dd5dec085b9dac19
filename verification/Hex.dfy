/** Bytes and their hexadecimal spellings: encoding, decoding in either letter
    case, and the prefixes that may stand in front. */
module Hex {
  import opened Text
  import J = Json

  type Byte = x: int | 0 <= x < 256

  function Encode(bytes: seq<Byte>): string {
    if bytes == [] then "" else [J.HexChar(bytes[0] / 16), J.HexChar(bytes[0] % 16)] + Encode(bytes[1..])
  }

  /** Go's hex.DecodeString: pairs of digits in either case. */
  function Decode(s: string): Option<seq<Byte>> {
    if s == "" then Some([])
    else if |s| == 1 then None
    else
      match (J.HexValue(s[0]), J.HexValue(s[1]), Decode(s[2..]))
      case (Some(hi), Some(lo), Some(rest)) => Some([hi * 16 + lo] + rest)
      case _ => None
  }

  function LowerChar(c: char): char {
    if 'A' <= c <= 'Z' then (c as int + 32) as char else c
  }

  function Lower(s: string): string {
    if s == "" then "" else [LowerChar(s[0])] + Lower(s[1..])
  }

  function TrimPrefix(s: string, p: string): string {
    if StartsWith(s, p) then s[|p|..] else s
  }

  /** Both spellings of the prefix go, one after the other. */
  function Strip(s: string): string {
    TrimPrefix(TrimPrefix(s, "0x"), "0X")
  }

  lemma {:induction false} DecodeEncode(bytes: seq<Byte>)
    ensures Decode(Encode(bytes)) == Some(bytes)
    ensures |Encode(bytes)| == 2 * |bytes|
    ensures Lower(Encode(bytes)) == Encode(bytes)
  {
    if bytes != [] {
      DecodeEncode(bytes[1..]);
      DigitOf(bytes[0] / 16);
      DigitOf(bytes[0] % 16);
      PairOfDigits(J.HexChar(bytes[0] / 16), J.HexChar(bytes[0] % 16), Encode(bytes[1..]));
      assert bytes == [bytes[0]] + bytes[1..];
    }
  }

  /** Two characters in front of a spelling. */
  lemma PairOfDigits(a: char, b: char, rest: string)
    ensures ([a, b] + rest)[2..] == rest
    ensures Lower([a, b] + rest) == [LowerChar(a), LowerChar(b)] + Lower(rest)
  {
    assert ([a, b] + rest)[1..] == [b] + rest && ([b] + rest)[1..] == rest;
    Associate([LowerChar(a)], [LowerChar(b)], Lower(rest));
    assert [LowerChar(a)] + [LowerChar(b)] == [LowerChar(a), LowerChar(b)];
  }

  lemma DigitOf(n: nat)
    requires n < 16
    ensures J.HexValue(J.HexChar(n)) == Some(n) && LowerChar(J.HexChar(n)) == J.HexChar(n)
  {
  }

  lemma DigitBack(c: char)
    requires J.HexValue(c).Some?
    ensures J.HexChar(J.HexValue(c).value) == LowerChar(c)
    ensures J.HexValue(LowerChar(c)) == J.HexValue(c)
  {
  }

  /** A decoded spelling is determined by its bytes up to letter case. */
  lemma {:induction false} EncodeDecode(s: string)
    requires Decode(s).Some?
    ensures Encode(Decode(s).value) == Lower(s)
    ensures |s| == 2 * |Decode(s).value|
  {
    if s != "" {
      EncodeDecode(s[2..]);
      var hi, lo := J.HexValue(s[0]).value, J.HexValue(s[1]).value;
      DigitBack(s[0]);
      DigitBack(s[1]);
      PairOfDigits(s[0], s[1], s[2..]);
      assert s == [s[0], s[1]] + s[2..];
      EncodeCons(hi, lo, Decode(s[2..]).value);
    }
  }

  lemma EncodeCons(hi: nat, lo: nat, rest: seq<Byte>)
    requires hi < 16 && lo < 16
    ensures Encode([hi * 16 + lo] + rest) == [J.HexChar(hi), J.HexChar(lo)] + Encode(rest)
  {
    var b := hi * 16 + lo;
    assert b / 16 == hi && b % 16 == lo;
    assert ([b] + rest)[1..] == rest;
  }

  lemma {:induction false} LowerLength(s: string)
    ensures |Lower(s)| == |s| && Lower(Lower(s)) == Lower(s)
  {
    if s != "" {
      LowerLength(s[1..]);
      assert Lower(s)[1..] == Lower(s[1..]);
    }
  }

  lemma {:induction false} DecodeLower(s: string)
    ensures Decode(Lower(s)) == Decode(s)
  {
    LowerLength(s);
    if |s| >= 2 {
      DecodeLower(s[2..]);
      PairOfDigits(s[0], s[1], s[2..]);
      assert s == [s[0], s[1]] + s[2..];
      PairOfDigits(LowerChar(s[0]), LowerChar(s[1]), Lower(s[2..]));
      LowerDigit(s[0]);
      LowerDigit(s[1]);
    }
  }

  lemma LowerDigit(c: char)
    ensures J.HexValue(LowerChar(c)) == J.HexValue(c)
  {
  }
}
