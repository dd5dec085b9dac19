/** What the key orders mean: bytes of UTF-8, units of UTF-16, and numbers for array indices. */
module OrderMeaning {
  import opened Text
  import opened Decimal
  import opened KeyOrder

  datatype Encoding = Utf8 | Utf16Units

  /** A leading byte with the highest bits of n, and k bytes of six bits each. */
  function Continued(lead: int, n: nat, k: nat): (bytes: seq<int>)
    ensures |bytes| == k + 1
  {
    if k == 0 then [lead + n] else Continued(lead, n / 64, k - 1) + [0x80 + n % 64]
  }

  /** The bytes of a code point, by section 3 of RFC 3629. */
  function Utf8Bytes(n: nat): (bytes: seq<int>)
    ensures bytes != []
  {
    if n < 0x80 then Continued(0, n, 0)
    else if n < 0x800 then Continued(0xC0, n, 1)
    else if n < 0x10000 then Continued(0xE0, n, 2)
    else Continued(0xF0, n, 3)
  }

  /** Its 16-bit units, by section 2.1 of RFC 2781. */
  function Units16(n: nat): (units: seq<int>)
    ensures units != []
  {
    if n < 0x10000 then [n] else [0xD800 + (n - 0x10000) / 1024, 0xDC00 + (n - 0x10000) % 1024]
  }

  function Encoded(e: Encoding, c: char): (units: seq<int>)
    ensures units != []
  {
    if e.Utf8? then Utf8Bytes(c as int) else Units16(c as int)
  }

  function EncodedAll(e: Encoding, s: string): seq<int> {
    if s == "" then [] else Encoded(e, s[0]) + EncodedAll(e, s[1..])
  }

  /** Comparison unit by unit, a prefix coming first. */
  predicate UnitsLess(x: seq<int>, y: seq<int>) {
    if y == [] then false
    else if x == [] then true
    else if x[0] == y[0] then UnitsLess(x[1..], y[1..])
    else x[0] < y[0]
  }

  lemma {:induction false} SameFront(p: seq<int>, x: seq<int>, y: seq<int>)
    ensures UnitsLess(p + x, p + y) <==> UnitsLess(x, y)
  {
    if p == [] {
      assert p + x == x && p + y == y;
    } else {
      SameFront(p[1..], x, y);
      assert (p + x)[1..] == p[1..] + x && (p + y)[1..] == p[1..] + y;
    }
  }

  predicate DiffersAt(a: seq<int>, b: seq<int>, i: nat) {
    i < |a| && i < |b| && a[i] < b[i] && forall j :: 0 <= j < i ==> a[j] == b[j]
  }

  lemma FirstDifference(a: seq<int>, b: seq<int>, i: nat, x: seq<int>, y: seq<int>)
    requires DiffersAt(a, b, i)
    ensures UnitsLess(a + x, b + y) && !UnitsLess(b + y, a + x)
  {
    var p := a[..i];
    assert p == b[..i];
    assert a + x == p + (a[i..] + x) && b + y == p + (b[i..] + y);
    SameFront(p, a[i..] + x, b[i..] + y);
    SameFront(p, b[i..] + y, a[i..] + x);
    assert (a[i..] + x)[0] == a[i] && (b[i..] + y)[0] == b[i];
  }

  lemma {:induction false} ContinuedDiffers(lead: int, n: nat, m: nat, k: nat) returns (i: nat)
    requires n < m
    ensures DiffersAt(Continued(lead, n, k), Continued(lead, m, k), i)
  {
    if k == 0 {
      i := 0;
    } else if n / 64 == m / 64 {
      i := k;
    } else {
      i := ContinuedDiffers(lead, n / 64, m / 64, k - 1);
    }
  }

  lemma LeadingByte(lead: int, n: nat, k: nat)
    requires k > 0
    ensures Continued(lead, n, k)[0] == Continued(lead, n / 64, k - 1)[0]
  {}

  lemma FirstBytes(n: nat)
    ensures Utf8Bytes(n)[0] ==
            if n < 0x80 then n else if n < 0x800 then 0xC0 + n / 64
            else if n < 0x10000 then 0xE0 + n / 64 / 64 else 0xF0 + n / 64 / 64 / 64
  {
    if n >= 0x10000 {
      LeadingByte(0xF0, n, 3);
      LeadingByte(0xF0, n / 64, 2);
      LeadingByte(0xF0, n / 64 / 64, 1);
    } else if n >= 0x800 {
      LeadingByte(0xE0, n, 2);
      LeadingByte(0xE0, n / 64, 1);
    } else if n >= 0x80 {
      LeadingByte(0xC0, n, 1);
    }
  }

  lemma Utf8Differs(n: nat, m: nat) returns (i: nat)
    requires n < m
    ensures DiffersAt(Utf8Bytes(n), Utf8Bytes(m), i)
  {
    FirstBytes(n);
    FirstBytes(m);
    var k := |Utf8Bytes(m)| - 1;
    if |Utf8Bytes(n)| == k + 1 {
      i := ContinuedDiffers(if k == 0 then 0 else if k == 1 then 0xC0 else if k == 2 then 0xE0 else 0xF0, n, m, k);
    } else {
      i := 0;
    }
  }

  lemma Utf16Differs(c: char, d: char) returns (i: nat)
    requires Rank(true, c) < Rank(true, d)
    ensures DiffersAt(Encoded(Utf16Units, c), Encoded(Utf16Units, d), i)
  {
    var n, m := c as int - 0x10000, d as int - 0x10000;
    i := if n >= 0 && m >= 0 && n / 1024 == m / 1024 then 1 else 0;
  }

  /** Where the first characters differ, their ranks decide, whatever follows. */
  lemma CharsDecide(e: Encoding, c: char, d: char, x: seq<int>, y: seq<int>)
    requires Rank(e.Utf16Units?, c) < Rank(e.Utf16Units?, d)
    ensures UnitsLess(Encoded(e, c) + x, Encoded(e, d) + y) && !UnitsLess(Encoded(e, d) + y, Encoded(e, c) + x)
  {
    var i;
    if e.Utf8? {
      i := Utf8Differs(c as int, d as int);
    } else {
      i := Utf16Differs(c, d);
    }
    FirstDifference(Encoded(e, c), Encoded(e, d), i, x, y);
  }

  /** The order of keys by code point is the order of their UTF-8 bytes, as Go compares them,
      and the other one is the order of their UTF-16 units, as JavaScript does. */
  lemma {:induction false} OrderByUnits(e: Encoding, a: string, b: string)
    ensures LexLess(e.Utf16Units?, a, b) <==> UnitsLess(EncodedAll(e, a), EncodedAll(e, b))
  {
    if a != "" && b != "" {
      if a[0] == b[0] {
        OrderByUnits(e, a[1..], b[1..]);
        SameFront(Encoded(e, a[0]), EncodedAll(e, a[1..]), EncodedAll(e, b[1..]));
      } else if Rank(e.Utf16Units?, a[0]) < Rank(e.Utf16Units?, b[0]) {
        CharsDecide(e, a[0], b[0], EncodedAll(e, a[1..]), EncodedAll(e, b[1..]));
      } else {
        CharsDecide(e, b[0], a[0], EncodedAll(e, b[1..]), EncodedAll(e, a[1..]));
      }
    }
  }

  // ----- array indices

  function Pow10(n: nat): nat {
    if n == 0 then 1 else 10 * Pow10(n - 1)
  }

  lemma {:induction false} NumberCons(c: char, s: string)
    requires IsDigit(c) && AllDigits(s)
    ensures Number([c] + s) == DigitValue(c) * Pow10(|s|) + Number(s)
    ensures Number(s) < Pow10(|s|)
  {
    var t := [c] + s;
    if s == "" {
      assert t[..0] == "" && t[0] == c;
    } else {
      var n := |s| - 1;
      NumberCons(c, s[..n]);
      assert t[..|t| - 1] == [c] + s[..n] && t[|t| - 1] == s[n];
      assert DigitValue(c) * Pow10(|s|) == 10 * (DigitValue(c) * Pow10(n));
    }
  }

  lemma NumberBelow(s: string)
    requires AllDigits(s)
    ensures Number(s) < Pow10(|s|)
  {
    NumberCons('0', s);
  }

  lemma DigitsDecide(c: char, d: char, s: string, t: string)
    requires IsDigit(c) && IsDigit(d) && AllDigits(s) && AllDigits(t) && |s| == |t| && c < d
    ensures Number([c] + s) < Number([d] + t)
  {
    NumberCons(c, s);
    NumberCons(d, t);
    HigherDigit(DigitValue(c), DigitValue(d), Pow10(|s|), Number(s), Number(t));
  }

  lemma HigherDigit(x: int, y: int, p: int, m: int, n: int)
    requires x < y && 0 <= m < p && 0 <= n
    ensures x * p + m < y * p + n
  {
    Scaled(x + 1, y, p);
  }

  lemma Scaled(x: int, y: int, p: int)
    requires x <= y && 0 <= p
    ensures x * p <= y * p
  {}

  /** Numerals of one length are ordered as their numbers. */
  lemma {:induction false} SameLengthOrder(a: string, b: string)
    requires AllDigits(a) && AllDigits(b) && |a| == |b|
    ensures LexLess(false, a, b) <==> Number(a) < Number(b)
  {
    if a != "" {
      assert a == [a[0]] + a[1..] && b == [b[0]] + b[1..];
      if a[0] == b[0] {
        SameLengthOrder(a[1..], b[1..]);
        NumberCons(a[0], a[1..]);
        NumberCons(b[0], b[1..]);
      } else if a[0] < b[0] {
        DigitsDecide(a[0], b[0], a[1..], b[1..]);
      } else {
        DigitsDecide(b[0], a[0], b[1..], a[1..]);
      }
    }
  }

  /** A longer canonical numeral is larger. */
  lemma ShorterIsSmaller(a: string, b: string)
    requires Canonical(a) && Canonical(b) && |a| < |b|
    ensures Number(a) < Number(b)
  {
    NumberBelow(a);
    assert b == [b[0]] + b[1..];
    NumberCons(b[0], b[1..]);
    Pow10Grows(|a|, |b| - 1);
    Scaled(1, DigitValue(b[0]), Pow10(|b| - 1));
  }

  lemma {:induction false} Pow10Grows(m: nat, n: nat)
    requires m <= n
    ensures 1 <= Pow10(m) <= Pow10(n)
    decreases n
  {
    if m < n {
      Pow10Grows(m, n - 1);
    } else if n > 0 {
      Pow10Grows(n - 1, n - 1);
    }
  }

  lemma NextDigit(front: string, n: nat, c: char, s: string)
    requires Number(front) == n && s == front + [c]
    ensures Number(s) == 10 * n + DigitValue(c)
  {
    assert s[..|s| - 1] == front && s[|s| - 1] == c;
  }

  lemma FirstFive()
    ensures Number("42949") == 42949
  {
    NextDigit("", 0, '4', "4");
    NextDigit("4", 4, '2', "42");
    NextDigit("42", 42, '9', "429");
    NextDigit("429", 429, '4', "4294");
    NextDigit("4294", 4294, '9', "42949");
  }

  lemma MaxIndexText()
    ensures Number("4294967294") == 0x1_0000_0000 - 2
  {
    FirstFive();
    NextDigit("42949", 42949, '6', "429496");
    NextDigit("429496", 429496, '7', "4294967");
    NextDigit("4294967", 4294967, '2', "42949672");
    NextDigit("42949672", 42949672, '9', "429496729");
    NextDigit("429496729", 429496729, '4', "4294967294");
  }

  /** Length and then digits compare a canonical numeral with one of ten digits. */
  lemma AtMost(k: string, max: string)
    requires Canonical(k) && Canonical(max) && |max| == 10
    ensures |k| < 10 || (|k| == 10 && !LexLess(false, max, k)) <==> Number(k) <= Number(max)
  {
    if |k| < 10 {
      ShorterIsSmaller(k, max);
    } else if |k| == 10 {
      SameLengthOrder(max, k);
    } else {
      ShorterIsSmaller(max, k);
    }
  }

  /** The array indices are the numerals of the numbers up to 2^32 - 2. */
  lemma ArrayIndexExactly(k: string)
    ensures IsArrayIndex(k) <==> exists n: nat :: n <= 0x1_0000_0000 - 2 && k == Numeral(n)
    ensures IsArrayIndex(k) ==> Canonical(k)
  {
    MaxIndexText();
    if Canonical(k) {
      NumeralOfNumber(k);
      AtMost(k, "4294967294");
    }
    forall n: nat | k == Numeral(n) ensures Canonical(k) && Number(k) == n {
      NumberOfNumeral(n);
    }
  }

  /** They are enumerated by number, and before all other keys, which keep UTF-16 order. */
  lemma IndicesByNumber(a: string, b: string)
    ensures IsArrayIndex(a) && IsArrayIndex(b) ==> (Before(JsEnumeration, a, b) <==> Number(a) < Number(b))
    ensures IsArrayIndex(a) && !IsArrayIndex(b) ==> Before(JsEnumeration, a, b) && !Before(JsEnumeration, b, a)
    ensures !IsArrayIndex(a) && !IsArrayIndex(b) ==>
              (Before(JsEnumeration, a, b) <==> UnitsLess(EncodedAll(Utf16Units, a), EncodedAll(Utf16Units, b)))
  {
    OrderByUnits(Utf16Units, a, b);
    if IsArrayIndex(a) && IsArrayIndex(b) {
      ArrayIndexExactly(a);
      ArrayIndexExactly(b);
      if |a| < |b| {
        ShorterIsSmaller(a, b);
      } else if |b| < |a| {
        ShorterIsSmaller(b, a);
      } else {
        SameLengthOrder(a, b);
      }
    }
  }
}
