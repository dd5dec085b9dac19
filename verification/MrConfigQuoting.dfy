/** The text Go writes for a MrConfigV3 document against the canonical JSON text of RFC 8785. */
module MrConfigQuoting {
  import opened Text
  import Decimal
  import Hex
  import J = Json
  import KeyOrder
  import opened MrConfig
  import opened Q = Quoting

  /** The values documents have: a string, a numeral or a list of strings. */
  predicate Flat(t: J.Tree) {
    match t
    case Str(_) => true
    case Num(token) => Decimal.Canonical(token)
    case Arr(items) => forall i :: 0 <= i < |items| ==> items[i].Str?
    case _ => false
  }

  predicate Printable(key: string) {
    forall i :: 0 <= i < |key| ==> ' ' <= key[i] <= '~'
  }

  predicate Named(m: J.Member) {
    Flat(m.value) && Printable(m.key)
  }

  lemma NamePrintable(n: nat)
    requires n < COUNT
    ensures Printable(Name(n))
  {
  }

  lemma MembersNamed(d: Document)
    ensures forall i :: 0 <= i < |Members(d)| ==> Named(Members(d)[i])
  {
    FilledAscends(SlotsOf(d));
    forall i | 0 <= i < |Members(d)| ensures Named(Members(d)[i]) {
      var m := Members(d)[i];
      assert m in Filled(SlotsOf(d));
      var n :| 0 <= n < COUNT && m.key == Name(n) && SlotsOf(d)[n] == Some(m);
      SlotFlat(d, n);
      NamePrintable(n);
    }
  }

  lemma SlotFlat(d: Document, n: nat)
    requires n < COUNT && MemberAt(d, n).Some?
    ensures Flat(MemberAt(d, n).value.value)
  {
    Decimal.NumberOfNumeral(d.version);
  }

  /** Names are printable, so both styles quote them alike. */
  lemma NamesAlike(table: char -> bool, key: string)
    requires Printable(key)
    ensures GoQuote(table, key) == J.Quote(false, key)
  {
    QuotesAlike(table, key);
  }

  // ----- in JSON style it is the canonical text

  lemma {:induction false} ItemsInJson(items: seq<J.Tree>)
    requires forall i :: 0 <= i < |items| ==> items[i].Str?
    ensures Join(ItemTexts(Json, items), ",") == J.PrintItems(false, items)
  {
    if |items| > 1 {
      ItemsInJson(items[1..]);
      assert ItemTexts(Json, items)[1..] == ItemTexts(Json, items[1..]);
    }
  }

  lemma TextInJson(m: J.Member)
    requires Flat(m.value)
    ensures TextOf(Json, m) == J.PrintMember(false, m)
  {
    if m.value.Arr? {
      ItemsInJson(m.value.items);
      Associate("[", J.PrintItems(false, m.value.items), "]");
    }
  }

  lemma CanonicalInJson(d: Document)
    ensures CanonicalIn(Json, d) == Canonical(d)
  {
    var ms := Members(d);
    MembersNamed(d);
    forall i | 0 <= i < |ms| ensures TextsOf(Json, ms)[i] == MemberTexts(ms)[i] {
      assert Named(ms[i]);
      TextInJson(ms[i]);
    }
    assert TextsOf(Json, ms) == MemberTexts(ms);
    JoinMembers(ms);
    Associate("{", J.PrintMembers(false, ms), "}");
  }

  // ----- when Go writes the canonical text

  predicate AlikeValue(table: char -> bool, t: J.Tree) {
    match t
    case Str(s) => QuotedAlike(table, s)
    case Arr(items) => forall i :: 0 <= i < |items| ==> AlikeValue(table, items[i])
    case _ => true
  }

  lemma ValuesAlike(table: char -> bool, t: J.Tree)
    requires Flat(t)
    ensures if AlikeValue(table, t) then ValueText(PercentQ(table), t) == ValueText(Json, t)
            else Diverge(ValueText(PercentQ(table), t), ValueText(Json, t))
  {
    match t
    case Str(s) => QuotesAlike(table, s);
    case Arr(items) => ItemsAlike(table, items);
    case _ =>
  }

  lemma ItemsAlike(table: char -> bool, items: seq<J.Tree>)
    requires Flat(J.Arr(items))
    ensures if AlikeValue(table, J.Arr(items)) then
              ItemTexts(PercentQ(table), items) == ItemTexts(Json, items)
            else Diverge(ValueText(PercentQ(table), J.Arr(items)), ValueText(Json, J.Arr(items)))
  {
    var xs, ys := ItemTexts(PercentQ(table), items), ItemTexts(Json, items);
    forall i | 0 <= i < |items|
      ensures Separate(xs[i], ys[i]) && xs[i] != "" && xs[i][0] == '"' && ys[i] != "" && ys[i][0] == '"'
      ensures xs[i] == ys[i] <==> AlikeValue(table, items[i])
    {
      QuotesAlike(table, items[i].s);
      DivergeDiffers(xs[i], ys[i]);
      DivergingSeparate(xs[i], ys[i]);
    }
    JoinsSeparate(xs, ys, ']');
    if !AlikeValue(table, J.Arr(items)) {
      assert xs != ys;
      DivergeBehind("[", Join(xs, ",") + "]", Join(ys, ",") + "]");
    }
  }

  lemma DivergeDiffers(a: string, b: string)
    ensures Diverge(a, b) ==> a != b
  {
    if Diverge(a, b) {
      DivergeOn(a, b, "", "");
      assert a + "" == a && b + "" == b;
    }
  }

  lemma TextsAlike(table: char -> bool, m: J.Member)
    requires Named(m)
    ensures var x, y := TextOf(PercentQ(table), m), TextOf(Json, m);
            Separate(x, y) && (x == y <==> AlikeValue(table, m.value)) &&
            x != "" && x[0] == '"' && y != "" && y[0] == '"'
  {
    var x, y := TextOf(PercentQ(table), m), TextOf(Json, m);
    NamesAlike(table, m.key);
    ValuesAlike(table, m.value);
    var key := J.Quote(false, m.key) + ":";
    if !AlikeValue(table, m.value) {
      DivergeBehind(key, ValueText(PercentQ(table), m.value), ValueText(Json, m.value));
      DivergeDiffers(x, y);
    }
    DivergingSeparate(x, y);
  }

  lemma MembersAlike(table: char -> bool, d: Document)
    ensures GoCanonical(table, d) == Canonical(d) <==>
            forall i :: 0 <= i < |Members(d)| ==> AlikeValue(table, Members(d)[i].value)
  {
    CanonicalInJson(d);
    MembersNamed(d);
    var ms := Members(d);
    var xs, ys := TextsOf(PercentQ(table), ms), TextsOf(Json, ms);
    forall i | 0 <= i < |ms|
      ensures Separate(xs[i], ys[i]) && xs[i] != "" && xs[i][0] == '"' && ys[i] != "" && ys[i][0] == '"'
      ensures xs[i] == ys[i] <==> AlikeValue(table, ms[i].value)
    {
      assert Named(ms[i]);
      TextsAlike(table, ms[i]);
    }
    JoinsSeparate(xs, ys, '}');
    if forall i :: 0 <= i < |ms| ==> AlikeValue(table, ms[i].value) {
      assert xs == ys;
    } else {
      assert xs != ys;
      DivergeBehind("{", Join(xs, ",") + "}", Join(ys, ",") + "}");
      DivergeDiffers(GoCanonical(table, d), CanonicalIn(Json, d));
    }
  }

  lemma {:induction false} FilledHas(slots: Slots, n: nat)
    requires n < |slots| && slots[n].Some?
    ensures slots[n].value in Filled(slots)
  {
    var last := |slots| - 1;
    if n < last {
      FilledHas(slots[..last], n);
    }
  }

  lemma SlotsAlike(table: char -> bool, d: Document)
    ensures (forall i :: 0 <= i < |Members(d)| ==> AlikeValue(table, Members(d)[i].value)) <==>
            (forall n: nat :: n < COUNT && MemberAt(d, n).Some? ==> AlikeValue(table, MemberAt(d, n).value.value))
  {
    var slots, ms := SlotsOf(d), Members(d);
    FilledAscends(slots);
    if forall i :: 0 <= i < |ms| ==> AlikeValue(table, ms[i].value) {
      forall n: nat | n < COUNT && MemberAt(d, n).Some? ensures AlikeValue(table, MemberAt(d, n).value.value) {
        FilledHas(slots, n);
        var i :| 0 <= i < |ms| && ms[i] == slots[n].value;
      }
    }
    if forall n: nat :: n < COUNT && MemberAt(d, n).Some? ==> AlikeValue(table, MemberAt(d, n).value.value) {
      forall i | 0 <= i < |ms| ensures AlikeValue(table, ms[i].value) {
        assert ms[i] in ms;
        var n :| 0 <= n < COUNT && ms[i].key == Name(n) && slots[n] == Some(ms[i]);
        assert MemberAt(d, n) == Some(ms[i]);
      }
    }
  }

  /** All the strings of a document are quoted alike by %q and by JSON. */
  predicate AlikeDocument(table: char -> bool, d: Document) {
    && QuotedAlike(table, d.appId) && QuotedAlike(table, d.composeHash) && QuotedAlike(table, d.gpuPolicyHash)
    && QuotedAlike(table, d.keyProvider) && QuotedAlike(table, d.keyProviderId) && QuotedAlike(table, d.instanceId)
    && (d.initScriptHashes.Some? ==>
          forall i :: 0 <= i < |d.initScriptHashes.value| ==> QuotedAlike(table, d.initScriptHashes.value[i]))
  }

  lemma SlotsOfAlike(table: char -> bool, d: Document)
    ensures (forall n: nat :: n < COUNT && MemberAt(d, n).Some? ==> AlikeValue(table, MemberAt(d, n).value.value)) <==>
            AlikeDocument(table, d)
  {
    assert MemberAt(d, 0) == OptionalMember(0, d.appId) && MemberAt(d, 1).value.value == J.Str(d.composeHash);
    assert MemberAt(d, 2) == OptionalMember(2, d.gpuPolicyHash) && MemberAt(d, 4) == OptionalMember(4, d.instanceId);
    assert MemberAt(d, 5).value.value == J.Str(d.keyProvider) && MemberAt(d, 6) == OptionalMember(6, d.keyProviderId);
    if d.initScriptHashes.Some? {
      var items := StrItems(d.initScriptHashes.value);
      assert MemberAt(d, 3).value.value == J.Arr(items);
      assert AlikeValue(table, J.Arr(items)) <==>
             forall i :: 0 <= i < |items| ==> QuotedAlike(table, d.initScriptHashes.value[i]);
    }
  }

  /** Go writes the canonical JSON text of a document exactly when %q and JSON quote all its strings alike. */
  lemma GoWritesCanonical(table: char -> bool, d: Document)
    ensures GoCanonical(table, d) == Canonical(d) <==> AlikeDocument(table, d)
  {
    MembersAlike(table, d);
    SlotsAlike(table, d);
    SlotsOfAlike(table, d);
  }

  // ----- for documents the builder accepts only the key provider matters

  lemma {:induction false} HexAlike(table: char -> bool, s: string)
    requires Hex.Decode(s).Some?
    ensures QuotedAlike(table, s)
    decreases |s|
  {
    if s != "" {
      HexAlike(table, s[2..]);
      assert J.HexValue(s[0]).Some? && J.HexValue(s[1]).Some?;
      forall i | 0 <= i < |s| ensures AlikeChar(table, s[i]) {
        if i >= 2 { assert s[i] == s[2..][i - 2]; }
      }
    }
  }

  lemma BareAlike(table: char -> bool, value: string)
    requires value == "" || Hex.Decode(Hex.Strip(value)).Some?
    ensures QuotedAlike(table, Bare(value))
  {
    Hex.DecodeLower(Hex.Strip(value));
    HexAlike(table, Bare(value));
  }

  /** For every input the builder accepts, Go's text is the canonical JSON text, which is
      what JavaScript writes, exactly when %q and JSON quote the key provider alike. */
  lemma BuiltTextIsCanonical(table: char -> bool, input: Input)
    requires Acceptable(input)
    ensures JsCanonical(DocumentOf(input)) == Canonical(DocumentOf(input))
    ensures GoCanonical(table, DocumentOf(input)) == JsCanonical(DocumentOf(input))
            <==> QuotedAlike(table, input.keyProvider)
  {
    var d := DocumentOf(input);
    BareAlike(table, input.appId);
    BareAlike(table, input.composeHash);
    BareAlike(table, input.gpuPolicyHash);
    BareAlike(table, input.keyProviderId);
    BareAlike(table, input.instanceId);
    if input.initScriptHashes.Some? {
      forall i | 0 <= i < |input.initScriptHashes.value| ensures QuotedAlike(table, d.initScriptHashes.value[i]) {
        BareAlike(table, input.initScriptHashes.value[i]);
      }
    }
    GoWritesCanonical(table, d);
    FixedOrderIsSortedOrder(d);
  }

  /** A control character in the key provider is written as \x01 by Go and as \u0001 in JSON. */
  lemma ControlDiffers(table: char -> bool, d: Document)
    requires d.keyProvider == "\U{1}"
    ensures GoCanonical(table, d) != Canonical(d)
  {
    assert !AlikeChar(table, d.keyProvider[0]);
    GoWritesCanonical(table, d);
  }

  // ----- different documents have different Go texts

  /** Whatever follows them in a list, the texts differ at a place both have. */
  predicate Parted(x: string, y: string) {
    forall c, e :: IsEnd(c) && IsEnd(e) ==> Diverge(x + [c], y + [e])
  }

  lemma DivergingParted(x: string, y: string)
    requires Diverge(x, y)
    ensures Parted(x, y)
  {
    forall c, e | IsEnd(c) && IsEnd(e) ensures Diverge(x + [c], y + [e]) {
      DivergeOn(x, y, [c], [e]);
    }
  }

  lemma PartedDiffer(x: string, y: string)
    requires Parted(x, y)
    ensures x != y && Separate(x, y)
  {
    assert IsEnd(',');
    DivergeDiffers(x + [','], y + [',']);
  }

  lemma {:induction false} DigitsParted(a: string, b: string, c: char, e: char)
    requires Decimal.AllDigits(a) && Decimal.AllDigits(b) && a != b && IsEnd(c) && IsEnd(e)
    ensures Diverge(a + [c], b + [e])
    decreases |a|
  {
    if a != "" && b != "" {
      assert a == [a[0]] + a[1..] && b == [b[0]] + b[1..];
      assert (a + [c])[1..] == a[1..] + [c] && (b + [e])[1..] == b[1..] + [e];
      if a[0] == b[0] {
        DigitsParted(a[1..], b[1..], c, e);
      }
    }
  }

  lemma ItemsDiffer(table: char -> bool, x: seq<J.Tree>, y: seq<J.Tree>)
    requires Flat(J.Arr(x)) && Flat(J.Arr(y)) && x != y
    ensures Diverge(ValueText(PercentQ(table), J.Arr(x)), ValueText(PercentQ(table), J.Arr(y)))
  {
    var xs, ys := ItemTexts(PercentQ(table), x), ItemTexts(PercentQ(table), y);
    forall i | 0 <= i < |x| && i < |y| ensures Separate(xs[i], ys[i]) && (xs[i] == ys[i] <==> x[i] == y[i]) {
      if x[i] != y[i] {
        QuotesDiverge(table, x[i].s, y[i].s);
        DivergeDiffers(xs[i], ys[i]);
      }
      DivergingSeparate(xs[i], ys[i]);
    }
    JoinsSeparate(xs, ys, ']');
    assert xs != ys;
    DivergeBehind("[", Join(xs, ",") + "]", Join(ys, ",") + "]");
  }

  lemma ValuesParted(table: char -> bool, v: J.Tree, w: J.Tree)
    requires Flat(v) && Flat(w) && v != w
    ensures Parted(ValueText(PercentQ(table), v), ValueText(PercentQ(table), w))
  {
    var x, y := ValueText(PercentQ(table), v), ValueText(PercentQ(table), w);
    if v.Num? && w.Num? {
      forall c, e | IsEnd(c) && IsEnd(e) ensures Diverge(x + [c], y + [e]) {
        DigitsParted(v.token, w.token, c, e);
      }
    } else {
      if v.Str? && w.Str? {
        QuotesDiverge(table, v.s, w.s);
      } else if v.Arr? && w.Arr? {
        ItemsDiffer(table, v.items, w.items);
      } else {
        assert x[0] == if v.Str? then '"' else if v.Arr? then '[' else v.token[0];
      }
      DivergingParted(x, y);
    }
  }

  lemma TextsParted(table: char -> bool, m: J.Member, n: J.Member)
    requires Named(m) && Named(n) && m != n
    ensures Parted(TextOf(PercentQ(table), m), TextOf(PercentQ(table), n))
  {
    var x, y := ValueText(PercentQ(table), m.value), ValueText(PercentQ(table), n.value);
    var k, l := GoQuote(table, m.key), GoQuote(table, n.key);
    if m.key != n.key {
      QuotesDiverge(table, m.key, n.key);
      DivergeOn(k, l, ":", ":");
      DivergeOn(k + ":", l + ":", x, y);
      DivergingParted(TextOf(PercentQ(table), m), TextOf(PercentQ(table), n));
    } else {
      ValuesParted(table, m.value, n.value);
      forall c, e | IsEnd(c) && IsEnd(e)
        ensures Diverge(TextOf(PercentQ(table), m) + [c], TextOf(PercentQ(table), n) + [e])
      {
        DivergeBehind(k + ":", x + [c], y + [e]);
        Associate(k + ":", x, [c]);
        Associate(k + ":", y, [e]);
      }
    }
  }

  lemma ListsDiverge(table: char -> bool, ms: seq<J.Member>, ns: seq<J.Member>)
    requires ms != ns
    requires forall i :: 0 <= i < |ms| ==> Named(ms[i])
    requires forall i :: 0 <= i < |ns| ==> Named(ns[i])
    ensures Diverge("{" + (Join(TextsOf(PercentQ(table), ms), ",") + "}"),
                    "{" + (Join(TextsOf(PercentQ(table), ns), ",") + "}"))
  {
    var xs, ys := TextsOf(PercentQ(table), ms), TextsOf(PercentQ(table), ns);
    forall i | 0 <= i < |ms| && i < |ns| ensures Separate(xs[i], ys[i]) && (xs[i] == ys[i] <==> ms[i] == ns[i]) {
      if ms[i] != ns[i] {
        assert Named(ms[i]) && Named(ns[i]);
        TextsParted(table, ms[i], ns[i]);
        PartedDiffer(xs[i], ys[i]);
      }
    }
    JoinsSeparate(xs, ys, '}');
    assert xs != ys;
    DivergeBehind("{", Join(xs, ",") + "}", Join(ys, ",") + "}");
  }

  /** Go's text determines the document, whatever characters its strings hold. */
  lemma GoCanonicalInjective(table: char -> bool, a: Document, b: Document)
    requires GoCanonical(table, a) == GoCanonical(table, b)
    ensures a == b
  {
    if Members(a) != Members(b) {
      MembersNamed(a);
      MembersNamed(b);
      ListsDiverge(table, Members(a), Members(b));
      DivergeDiffers(GoCanonical(table, a), GoCanonical(table, b));
    }
    MembersGiveDocument(a);
    MembersGiveDocument(b);
  }
}
