/** The orders in which object keys are written, and the one sorted sequence each gives a key set. */
module KeyOrder {
  import opened Text

  // By code point (Go and Python), by UTF-16 code unit (JavaScript's sort), and as a JavaScript object
  // enumerates its own keys: array indices ascending by value, then strings as inserted.

  datatype Order = CodePoints | Utf16 | JsEnumeration

  /** Comparing code points by rank compares strings as UTF-16 does: the
      surrogates of supplementary characters sort below U+E000..U+FFFF. */
  function Rank(utf16: bool, c: char): int {
    if utf16 && 0xE000 <= c as int < 0x10000 then 0x110000 + c as int else c as int
  }

  predicate LexLess(utf16: bool, a: string, b: string) {
    if b == "" then false
    else if a == "" then true
    else if a[0] == b[0] then LexLess(utf16, a[1..], b[1..])
    else Rank(utf16, a[0]) < Rank(utf16, b[0])
  }

  /** A canonical numeral up to 2^32 - 2, which ECMAScript calls an array index. */
  predicate IsArrayIndex(k: string) {
    k != "" && (forall i :: 0 <= i < |k| ==> IsDigit(k[i])) &&
    (k[0] == '0' ==> k == "0") &&
    (|k| < 10 || (|k| == 10 && !LexLess(false, "4294967294", k)))
  }

  predicate Before(o: Order, a: string, b: string) {
    match o
    case CodePoints => LexLess(false, a, b)
    case Utf16 => LexLess(true, a, b)
    case JsEnumeration =>
      if IsArrayIndex(a) && IsArrayIndex(b) then |a| < |b| || (|a| == |b| && LexLess(false, a, b))
      else if IsArrayIndex(a) || IsArrayIndex(b) then IsArrayIndex(a)
      else LexLess(true, a, b)
  }

  lemma {:induction false} LexTotal(utf16: bool, a: string, b: string)
    ensures a == b || LexLess(utf16, a, b) || LexLess(utf16, b, a)
    ensures !(LexLess(utf16, a, b) && LexLess(utf16, b, a))
    ensures !LexLess(utf16, a, a)
  {
    if a != "" {
      LexTotal(utf16, a[1..], a[1..]);
      if b != "" && a[0] == b[0] {
        LexTotal(utf16, a[1..], b[1..]);
        assert a == [a[0]] + a[1..] && b == [b[0]] + b[1..];
      }
    }
  }

  lemma {:induction false} LexTransitive(utf16: bool, a: string, b: string, c: string)
    requires LexLess(utf16, a, b) && LexLess(utf16, b, c)
    ensures LexLess(utf16, a, c)
  {
    if a != "" && a[0] == b[0] == c[0] {
      LexTransitive(utf16, a[1..], b[1..], c[1..]);
    }
  }

  lemma Total(o: Order, a: string, b: string)
    ensures a == b || Before(o, a, b) || Before(o, b, a)
    ensures !(Before(o, a, b) && Before(o, b, a))
    ensures !Before(o, a, a)
  {
    LexTotal(false, a, b);
    LexTotal(true, a, b);
  }

  lemma Transitive(o: Order, a: string, b: string, c: string)
    requires Before(o, a, b) && Before(o, b, c)
    ensures Before(o, a, c)
  {
    var u := o == Utf16 || (o == JsEnumeration && !IsArrayIndex(a));
    if LexLess(u, a, b) && LexLess(u, b, c) {
      LexTransitive(u, a, b, c);
    }
  }

  // ----- sorting a set of keys

  predicate IsLeast(o: Order, ks: set<string>, k: string) {
    k in ks && forall j :: j in ks && j != k ==> Before(o, k, j)
  }

  lemma {:induction false} LeastExists(o: Order, ks: set<string>)
    requires ks != {}
    ensures exists k :: IsLeast(o, ks, k)
    decreases |ks|
  {
    var x :| x in ks;
    if ks == {x} {
      assert IsLeast(o, ks, x);
    } else {
      LeastExists(o, ks - {x});
      var y :| IsLeast(o, ks - {x}, y);
      Total(o, x, y);
      if Before(o, x, y) {
        forall j | j in ks && j != x ensures Before(o, x, j) {
          if j != y { Transitive(o, x, y, j); }
        }
        assert IsLeast(o, ks, x);
      } else {
        assert IsLeast(o, ks, y);
      }
    }
  }

  lemma LeastUnique(o: Order, ks: set<string>, a: string, b: string)
    requires IsLeast(o, ks, a) && IsLeast(o, ks, b)
    ensures a == b
  {
    Total(o, a, b);
  }

  ghost function Least(o: Order, ks: set<string>): (k: string)
    requires ks != {}
    ensures IsLeast(o, ks, k)
  {
    LeastExists(o, ks);
    var k :| IsLeast(o, ks, k);
    k
  }

  ghost predicate Ascending(o: Order, s: seq<string>) {
    forall i, j :: 0 <= i < j < |s| ==> Before(o, s[i], s[j])
  }

  function Elements(s: seq<string>): set<string> {
    set k | k in s
  }

  ghost function Sorted(o: Order, ks: set<string>): (s: seq<string>)
    ensures Elements(s) == ks && Ascending(o, s)
    decreases |ks|
  {
    if ks == {} then []
    else
      var k := Least(o, ks);
      var rest := Sorted(o, ks - {k});
      SortedCons(o, k, rest, ks);
      [k] + rest
  }

  lemma SortedCons(o: Order, k: string, rest: seq<string>, ks: set<string>)
    requires IsLeast(o, ks, k) && Elements(rest) == ks - {k} && Ascending(o, rest)
    ensures Elements([k] + rest) == ks && Ascending(o, [k] + rest)
  {
    var s := [k] + rest;
    assert forall j :: j in s <==> j == k || j in rest;
    assert forall j :: j in rest <==> j in Elements(rest);
    forall i, j | 0 <= i < j < |s| ensures Before(o, s[i], s[j]) {
      assert s[j] == rest[j - 1] && rest[j - 1] in Elements(rest);
      if i > 0 { assert s[i] == rest[i - 1]; }
    }
  }

  /** There is only one ascending listing of a set. */
  lemma {:induction false} SortedUnique(o: Order, s: seq<string>, t: seq<string>)
    requires Ascending(o, s) && Ascending(o, t) && Elements(s) == Elements(t)
    ensures s == t
  {
    if s == [] {
      NoElements(t);
    } else {
      NoElements(t);
      HeadIsLeast(o, s);
      HeadIsLeast(o, t);
      LeastUnique(o, Elements(s), s[0], t[0]);
      TailElements(o, s);
      TailElements(o, t);
      SortedUnique(o, s[1..], t[1..]);
      assert s == [s[0]] + s[1..] && t == [t[0]] + t[1..];
    }
  }

  lemma NoElements(t: seq<string>)
    ensures Elements(t) == {} <==> t == []
    ensures t != [] ==> t[0] in Elements(t)
  {
    assert t != [] ==> t[0] in Elements(t);
  }

  lemma HeadIsLeast(o: Order, s: seq<string>)
    requires s != [] && Ascending(o, s)
    ensures IsLeast(o, Elements(s), s[0])
  {
  }

  lemma TailElements(o: Order, s: seq<string>)
    requires s != [] && Ascending(o, s)
    ensures Elements(s[1..]) == Elements(s) - {s[0]}
  {
    Total(o, s[0], s[0]);
    assert s == [s[0]] + s[1..];
  }

  // ----- JavaScript's enumeration of keys inserted in UTF-16 order

  function Strings(s: seq<string>): (r: seq<string>)
    ensures forall k :: k in r <==> k in s && !IsArrayIndex(k)
  {
    if s == [] then []
    else if IsArrayIndex(s[0]) then Strings(s[1..])
    else [s[0]] + Strings(s[1..])
  }

  /** OrdinaryOwnPropertyKeys of ECMAScript, for keys inserted in the given order. */
  ghost function OwnKeys(inserted: seq<string>): seq<string> {
    Sorted(JsEnumeration, set k | k in inserted && IsArrayIndex(k)) + Strings(inserted)
  }

  lemma {:induction false} StringsAscending(s: seq<string>)
    requires Ascending(Utf16, s)
    ensures Ascending(JsEnumeration, Strings(s))
  {
    if s != [] {
      StringsAscending(s[1..]);
      if !IsArrayIndex(s[0]) {
        forall j | 0 < j < |Strings(s)| ensures Before(JsEnumeration, s[0], Strings(s)[j]) {
          assert Strings(s)[j] == Strings(s[1..])[j - 1];
          assert Strings(s)[j] in Strings(s[1..]);
          assert Strings(s)[j] in s[1..];
        }
      }
    }
  }

  /** Filling a fresh object in sorted order and enumerating it yields the JsEnumeration order. */
  lemma OwnKeysOfSorted(ks: set<string>)
    ensures OwnKeys(Sorted(Utf16, ks)) == Sorted(JsEnumeration, ks)
  {
    var inserted := Sorted(Utf16, ks);
    var indices := set k | k in inserted && IsArrayIndex(k);
    var front, back := Sorted(JsEnumeration, indices), Strings(inserted);
    StringsAscending(inserted);
    forall i, j | 0 <= i < |front| && 0 <= j < |back| ensures Before(JsEnumeration, front[i], back[j]) {
      assert front[i] in Elements(front) && back[j] in back;
    }
    assert Ascending(JsEnumeration, front + back);
    assert Elements(front + back) == ks by {
      assert forall k :: k in front + back <==> k in front || k in back;
      assert forall k :: k in front <==> k in Elements(front);
      assert forall k :: k in inserted <==> k in Elements(inserted);
    }
    SortedUnique(JsEnumeration, front + back, Sorted(JsEnumeration, ks));
  }

  /** Two orders list a set alike exactly when they agree on every pair of it. */
  ghost predicate SameOrder(a: Order, b: Order, ks: set<string>) {
    forall j, k :: j in ks && k in ks && Before(a, j, k) ==> Before(b, j, k)
  }

  lemma {:induction false} SortedAgree(a: Order, b: Order, ks: set<string>)
    ensures Sorted(a, ks) == Sorted(b, ks) <==> SameOrder(a, b, ks)
  {
    if SameOrder(a, b, ks) {
      SameOrderAscends(a, b, Sorted(a, ks));
      SortedUnique(b, Sorted(a, ks), Sorted(b, ks));
    }
    if Sorted(a, ks) == Sorted(b, ks) {
      forall j, k | j in ks && k in ks && Before(a, j, k) ensures Before(b, j, k) {
        BeforeByPosition(a, b, Sorted(a, ks), j, k);
      }
    }
  }

  lemma SameOrderAscends(a: Order, b: Order, s: seq<string>)
    requires Ascending(a, s) && SameOrder(a, b, Elements(s))
    ensures Ascending(b, s)
  {
    assert forall i :: 0 <= i < |s| ==> s[i] in Elements(s);
  }

  lemma BeforeByPosition(a: Order, b: Order, s: seq<string>, j: string, k: string)
    requires Ascending(a, s) && Ascending(b, s) && j in s && k in s && Before(a, j, k)
    ensures Before(b, j, k)
  {
    var x :| 0 <= x < |s| && s[x] == j;
    var y :| 0 <= y < |s| && s[y] == k;
    Total(a, j, k);
    assert x < y;
  }

  predicate PlainKey(k: string) {
    !IsArrayIndex(k) && forall i :: 0 <= i < |k| ==> k[i] < '\U{80}'
  }

  /** The keys app-compose documents use: on them both orders coincide. */
  lemma PlainKeysSameOrder(ks: set<string>)
    requires forall k :: k in ks ==> PlainKey(k)
    ensures SameOrder(CodePoints, JsEnumeration, ks)
  {
    forall j, k | j in ks && k in ks && Before(CodePoints, j, k) ensures Before(JsEnumeration, j, k) {
      AsciiLex(j, k);
    }
  }

  lemma {:induction false} AsciiLex(a: string, b: string)
    requires forall i :: 0 <= i < |a| ==> a[i] < '\U{80}'
    requires forall i :: 0 <= i < |b| ==> b[i] < '\U{80}'
    ensures LexLess(false, a, b) == LexLess(true, a, b)
  {
    if a != "" && b != "" && a[0] == b[0] {
      AsciiLex(a[1..], b[1..]);
    }
  }
}
