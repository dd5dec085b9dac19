/** The MrConfigV3 document: building it from loose inputs and writing it as RFC 8785 JSON. */
module MrConfig {
  import opened Text
  import opened Decimal
  import J = Json
  import Hex
  import KeyOrder
  import Q = Quoting

  datatype Input = Input(
    appId: string, composeHash: string, gpuPolicyHash: string, keyProvider: string,
    keyProviderId: string, instanceId: string, initScriptHashes: Option<seq<string>>)

  /** Absent fields are empty; the list distinguishes absent from empty. */
  datatype Document = Document(
    version: nat, appId: string, composeHash: string, gpuPolicyHash: string, keyProvider: string,
    keyProviderId: string, instanceId: string, initScriptHashes: Option<seq<string>>)

  datatype Error =
    | NotHex(field: string)
    | BadLength(field: string)
    | TooManyScripts
    | UnknownKeyProvider

  const MAX_INIT_SCRIPTS: nat := 5

  // ----- building

  function Bare(value: string): string {
    Hex.Lower(Hex.Strip(value))
  }

  function NormalizeHex(value: string, field: string): Result<string, Error> {
    if Hex.Decode(Bare(value)).None? then Err(NotHex(field)) else Ok(Bare(value))
  }

  function SizedHex(value: string, size: nat, field: string): Result<string, Error> {
    match NormalizeHex(value, field)
    case Err(e) => Err(e)
    case Ok(bare) => if |bare| != size * 2 then Err(BadLength(field)) else Ok(bare)
  }

  function OptionalHex(value: string, size: nat, field: string): Result<string, Error> {
    if value == "" then Ok("") else SizedHex(value, size, field)
  }

  function HashField(i: nat): string {
    "init_script_hashes[" + Numeral(i) + "]"
  }

  /** The spelling is hexadecimal, bare or prefixed, of the given number of bytes. */
  predicate SpellsBytes(value: string, size: nat) {
    Hex.Decode(Hex.Strip(value)).Some? && |Hex.Strip(value)| == 2 * size
  }

  predicate Acceptable(input: Input) {
    && SpellsBytes(input.composeHash, 32)
    && (input.appId == "" || SpellsBytes(input.appId, 20))
    && (input.gpuPolicyHash == "" || SpellsBytes(input.gpuPolicyHash, 32))
    && (input.keyProviderId == "" || Hex.Decode(Hex.Strip(input.keyProviderId)).Some?)
    && (input.instanceId == "" || SpellsBytes(input.instanceId, 20))
    && (input.initScriptHashes.Some? ==>
          |input.initScriptHashes.value| <= MAX_INIT_SCRIPTS &&
          forall i :: 0 <= i < |input.initScriptHashes.value| ==> SpellsBytes(input.initScriptHashes.value[i], 32))
  }

  function BareAll(values: seq<string>): (r: seq<string>)
    ensures |r| == |values| && forall i :: 0 <= i < |values| ==> r[i] == Bare(values[i])
  {
    seq(|values|, i requires 0 <= i < |values| => Bare(values[i]))
  }

  /** The one document an acceptable input stands for. */
  function DocumentOf(input: Input): Document {
    Document(3, Bare(input.appId), Bare(input.composeHash), Bare(input.gpuPolicyHash), input.keyProvider,
             Bare(input.keyProviderId), Bare(input.instanceId),
             if input.initScriptHashes.Some? then Some(BareAll(input.initScriptHashes.value)) else None)
  }

  lemma SizedHexAccepts(value: string, size: nat, field: string)
    ensures SizedHex(value, size, field).Ok? <==> SpellsBytes(value, size)
    ensures SpellsBytes(value, size) ==> SizedHex(value, size, field) == Ok(Bare(value))
    ensures NormalizeHex(value, field).Ok? <==> Hex.Decode(Hex.Strip(value)).Some?
    ensures Bare("") == ""
  {
    Hex.DecodeLower(Hex.Strip(value));
    Hex.LowerLength(Hex.Strip(value));
  }

  lemma OptionalHexAccepts(value: string, size: nat, field: string)
    ensures OptionalHex(value, size, field).Ok? <==> value == "" || SpellsBytes(value, size)
    ensures OptionalHex(value, size, field).Ok? ==> OptionalHex(value, size, field).value == Bare(value)
  {
    SizedHexAccepts(value, size, field);
  }

  function ErrorOf<T>(r: Result<T, Error>): Option<Error> {
    if r.Err? then Some(r.error) else None
  }

  function Either(first: Option<Error>, second: Option<Error>): Option<Error> {
    if first.Some? then first else second
  }

  function FirstSome<T>(options: seq<Option<T>>): Option<T> {
    if options == [] then None
    else if options[0].Some? then options[0]
    else FirstSome(options[1..])
  }

  /** The errors of checking each spelling for 32 bytes. */
  function HashErrors(values: seq<string>): seq<Option<Error>> {
    seq(|values|, i requires 0 <= i < |values| => ErrorOf(SizedHex(values[i], 32, HashField(i))))
  }

  function HashesError(values: seq<string>): Option<Error> {
    if |values| > MAX_INIT_SCRIPTS then Some(TooManyScripts) else FirstSome(HashErrors(values))
  }

  /** The first of the checks, in the order of the source, that an input fails. */
  function BuildError(input: Input): Option<Error> {
    Either(ErrorOf(SizedHex(input.composeHash, 32, "compose_hash")),
    Either(ErrorOf(OptionalHex(input.appId, 20, "app_id")),
    Either(ErrorOf(OptionalHex(input.gpuPolicyHash, 32, "gpu_policy_hash")),
    Either(if input.keyProviderId == "" then None else ErrorOf(NormalizeHex(input.keyProviderId, "key_provider_id")),
    Either(ErrorOf(OptionalHex(input.instanceId, 20, "instance_id")),
           if input.initScriptHashes.Some? then HashesError(input.initScriptHashes.value) else None)))))
  }

  predicate NoneBefore<T>(options: seq<Option<T>>, k: nat) {
    forall i :: 0 <= i < k && i < |options| ==> options[i].None?
  }

  lemma {:induction false} FirstSomeAt<T>(options: seq<Option<T>>, k: nat)
    requires k <= |options| && NoneBefore(options, k)
    ensures k == |options| ==> FirstSome(options) == None
    ensures k < |options| && options[k].Some? ==> FirstSome(options) == options[k]
  {
    if k > 0 {
      FirstSomeAt(options[1..], k - 1);
    }
  }

  /** The checks of one turn of the loop. */
  method CheckHash(values: seq<string>, index: nat) returns (bare: Result<string, Error>)
    requires index < |values|
    ensures HashErrors(values)[index] == ErrorOf(bare)
    ensures bare.Ok? <==> SpellsBytes(values[index], 32)
    ensures bare.Ok? ==> bare.value == Bare(values[index])
  {
    bare := SizedHex(values[index], 32, HashField(index));
    SizedHexAccepts(values[index], 32, HashField(index));
  }

  lemma NoErrorsSpell(values: seq<string>)
    requires NoneBefore(HashErrors(values), |values|)
    ensures forall i :: 0 <= i < |values| ==> SpellsBytes(values[i], 32)
  {
    forall i | 0 <= i < |values| ensures SpellsBytes(values[i], 32) {
      SizedHexAccepts(values[i], 32, HashField(i));
      assert HashErrors(values)[i].None?;
    }
  }

  method BuildHashes(values: seq<string>) returns (r: Result<seq<string>, Error>)
    ensures r.Ok? <==> |values| <= MAX_INIT_SCRIPTS && forall i :: 0 <= i < |values| ==> SpellsBytes(values[i], 32)
    ensures r.Ok? ==> r.value == BareAll(values)
    ensures HashesError(values) == ErrorOf(r)
  {
    if |values| > MAX_INIT_SCRIPTS {
      return Err(TooManyScripts);
    }
    var hashes: seq<string> := [];
    ghost var errors := HashErrors(values);
    for index := 0 to |values|
      invariant hashes == BareAll(values[..index])
      invariant NoneBefore(errors, index)
    {
      var bare := CheckHash(values, index);
      if bare.Err? {
        FirstSomeAt(errors, index);
        return Err(bare.error);
      }
      hashes := hashes + [bare.value];
    }
    assert values[..|values|] == values;
    FirstSomeAt(errors, |values|);
    NoErrorsSpell(values);
    return Ok(hashes);
  }

  /** Accepts exactly the acceptable inputs, and then assigns the document field by field. */
  method BuildMrConfigV3Document(input: Input) returns (r: Result<Document, Error>)
    ensures r.Ok? <==> Acceptable(input)
    ensures r.Ok? ==> r.value == DocumentOf(input)
    ensures BuildError(input) == ErrorOf(r)
  {
    var document := Document(3, "", "", "", input.keyProvider, "", "", None);
    var composeHash := SizedHex(input.composeHash, 32, "compose_hash");
    SizedHexAccepts(input.composeHash, 32, "compose_hash");
    if composeHash.Err? { return Err(composeHash.error); }
    document := document.(composeHash := composeHash.value);

    var appId := OptionalHex(input.appId, 20, "app_id");
    OptionalHexAccepts(input.appId, 20, "app_id");
    if appId.Err? { return Err(appId.error); }
    document := document.(appId := appId.value);

    var gpuPolicyHash := OptionalHex(input.gpuPolicyHash, 32, "gpu_policy_hash");
    OptionalHexAccepts(input.gpuPolicyHash, 32, "gpu_policy_hash");
    if gpuPolicyHash.Err? { return Err(gpuPolicyHash.error); }
    document := document.(gpuPolicyHash := gpuPolicyHash.value);

    var keyProviderId :=
      if input.keyProviderId == "" then Ok("") else NormalizeHex(input.keyProviderId, "key_provider_id");
    SizedHexAccepts(input.keyProviderId, 0, "key_provider_id");
    if keyProviderId.Err? { return Err(keyProviderId.error); }
    document := document.(keyProviderId := keyProviderId.value);

    var instanceId := OptionalHex(input.instanceId, 20, "instance_id");
    OptionalHexAccepts(input.instanceId, 20, "instance_id");
    if instanceId.Err? { return Err(instanceId.error); }
    document := document.(instanceId := instanceId.value);

    if input.initScriptHashes.Some? {
      var hashes := BuildHashes(input.initScriptHashes.value);
      if hashes.Err? { return Err(hashes.error); }
      document := document.(initScriptHashes := Some(hashes.value));
    }
    return Ok(document);
  }

  // ----- printing

  const COUNT: nat := 8

  /** The member names, in the order the source writes them. */
  function Name(i: nat): string {
    match i
    case 0 => "app_id"
    case 1 => "compose_hash"
    case 2 => "gpu_policy_hash"
    case 3 => "init_script_hashes"
    case 4 => "instance_id"
    case 5 => "key_provider"
    case 6 => "key_provider_id"
    case _ => "version"
  }

  function StrItems(values: seq<string>): (items: seq<J.Tree>)
    ensures |items| == |values| && forall i :: 0 <= i < |values| ==> items[i] == J.Str(values[i])
  {
    seq(|values|, i requires 0 <= i < |values| => J.Str(values[i]))
  }

  function OptionalMember(i: nat, value: string): Option<J.Member>
    requires i < COUNT
  {
    if value == "" then None else Some(J.Member(Name(i), J.Str(value)))
  }

  /** The member a document has under the i-th name. */
  function MemberAt(d: Document, i: nat): (m: Option<J.Member>)
    requires i < COUNT
    ensures m.Some? ==> m.value.key == Name(i) && J.WellFormed(m.value.value)
  {
    match i
    case 0 => OptionalMember(0, d.appId)
    case 1 => Some(J.Member(Name(1), J.Str(d.composeHash)))
    case 2 => OptionalMember(2, d.gpuPolicyHash)
    case 3 =>
      if d.initScriptHashes.Some? then Some(J.Member(Name(3), J.Arr(StrItems(d.initScriptHashes.value)))) else None
    case 4 => OptionalMember(4, d.instanceId)
    case 5 => Some(J.Member(Name(5), J.Str(d.keyProvider)))
    case 6 => OptionalMember(6, d.keyProviderId)
    case _ => Some(J.Member(Name(7), J.Num(Numeral(d.version))))
  }

  type Slots = seq<Option<J.Member>>

  /** Every slot that is filled holds a printable member under the slot's name. */
  predicate Keyed(slots: Slots) {
    |slots| <= COUNT &&
    forall i :: 0 <= i < |slots| && slots[i].Some? ==>
      slots[i].value.key == Name(i) && J.WellFormed(slots[i].value.value)
  }

  function SlotsOf(d: Document): (slots: Slots)
    ensures |slots| == COUNT && Keyed(slots)
    ensures forall i :: 0 <= i < COUNT ==> slots[i] == MemberAt(d, i)
  {
    seq(COUNT, i requires 0 <= i < COUNT => MemberAt(d, i))
  }

  /** The members in the filled slots, in order. */
  function Filled(slots: Slots): seq<J.Member> {
    if slots == [] then []
    else
      var front, last := slots[..|slots| - 1], slots[|slots| - 1];
      Filled(front) + if last.Some? then [last.value] else []
  }

  function Members(d: Document): seq<J.Member> {
    Filled(SlotsOf(d))
  }

  function Canonical(d: Document): string {
    J.Print(false, J.Obj(Members(d)))
  }

  function MemberTexts(ms: seq<J.Member>): (texts: seq<string>)
    ensures |texts| == |ms| && forall i :: 0 <= i < |ms| ==> texts[i] == J.PrintMember(false, ms[i])
  {
    seq(|ms|, i requires 0 <= i < |ms| => J.PrintMember(false, ms[i]))
  }

  lemma {:induction false} JoinMembers(ms: seq<J.Member>)
    ensures Join(MemberTexts(ms), ",") == J.PrintMembers(false, ms)
  {
    if |ms| > 1 {
      JoinMembers(ms[1..]);
      assert MemberTexts(ms)[1..] == MemberTexts(ms[1..]);
    }
  }

  // ----- Go's printer, which quotes with %q

  /** How strings are quoted: as %q does, given the table of printable characters, or as JSON. */
  datatype Style = PercentQ(table: char -> bool) | Json

  function QuoteAs(style: Style, s: string): string {
    match style
    case PercentQ(table) => Q.GoQuote(table, s)
    case Json => J.Quote(false, s)
  }

  function ItemText(style: Style, t: J.Tree): string {
    match t
    case Str(s) => QuoteAs(style, s)
    case Num(token) => token
    case _ => ""
  }

  function ItemTexts(style: Style, items: seq<J.Tree>): (texts: seq<string>)
    ensures |texts| == |items| && forall i :: 0 <= i < |items| ==> texts[i] == ItemText(style, items[i])
  {
    seq(|items|, i requires 0 <= i < |items| => ItemText(style, items[i]))
  }

  function ValueText(style: Style, t: J.Tree): string {
    if t.Arr? then "[" + (Join(ItemTexts(style, t.items), ",") + "]") else ItemText(style, t)
  }

  function TextOf(style: Style, m: J.Member): string {
    QuoteAs(style, m.key) + ":" + ValueText(style, m.value)
  }

  function TextsOf(style: Style, ms: seq<J.Member>): (texts: seq<string>)
    ensures |texts| == |ms| && forall i :: 0 <= i < |ms| ==> texts[i] == TextOf(style, ms[i])
  {
    seq(|ms|, i requires 0 <= i < |ms| => TextOf(style, ms[i]))
  }

  function CanonicalIn(style: Style, d: Document): string {
    "{" + (Join(TextsOf(style, Members(d)), ",") + "}")
  }

  /** What Go writes. */
  function GoCanonical(table: char -> bool, d: Document): string {
    CanonicalIn(PercentQ(table), d)
  }

  method QuoteAll(table: char -> bool, values: seq<string>) returns (quoted: seq<string>)
    ensures quoted == ItemTexts(PercentQ(table), StrItems(values))
  {
    quoted := [];
    for i := 0 to |values|
      invariant quoted == ItemTexts(PercentQ(table), StrItems(values[..i]))
    {
      quoted := quoted + [Q.GoQuote(table, values[i])];
    }
    assert values[..|values|] == values;
  }

  /** The texts of the members in the first `n` slots. */
  ghost predicate Written(table: char -> bool, members: seq<string>, d: Document, n: nat)
    requires n <= COUNT
  {
    members == TextsOf(PercentQ(table), Filled(SlotsOf(d)[..n]))
  }

  lemma FilledStep(slots: Slots, n: nat)
    requires n < |slots|
    ensures Filled(slots[..n + 1]) == Filled(slots[..n]) + if slots[n].Some? then [slots[n].value] else []
  {
    assert slots[..n + 1][..n] == slots[..n];
  }

  /** The closure appendMember; `d` and `i` say which member it writes. */
  method AppendMember(table: char -> bool, members: seq<string>, key: string, value: string, ghost d: Document,
                      ghost i: nat)
    returns (r: seq<string>)
    requires i < COUNT && Written(table, members, d, i)
    requires MemberAt(d, i).Some? && MemberAt(d, i).value.key == key
    requires ValueText(PercentQ(table), MemberAt(d, i).value.value) == value
    ensures Written(table, r, d, i + 1)
  {
    FilledStep(SlotsOf(d), i);
    r := members + [Q.GoQuote(table, key) + ":" + value];
  }

  lemma SkipMember(table: char -> bool, members: seq<string>, d: Document, i: nat)
    requires i < COUNT && MemberAt(d, i) == None && Written(table, members, d, i)
    ensures Written(table, members, d, i + 1)
  {
    FilledStep(SlotsOf(d), i);
    assert Filled(SlotsOf(d)[..i]) + [] == Filled(SlotsOf(d)[..i]);
  }

  method AppendOptional(table: char -> bool, members: seq<string>, key: string, value: string, ghost d: Document,
                        ghost i: nat)
    returns (r: seq<string>)
    requires i < COUNT && Written(table, members, d, i) && key == Name(i)
    requires MemberAt(d, i) == OptionalMember(i, value)
    ensures Written(table, r, d, i + 1)
  {
    if value != "" {
      r := AppendMember(table, members, key, Q.GoQuote(table, value), d, i);
    } else {
      SkipMember(table, members, d, i);
      r := members;
    }
  }

  method AppendScripts(table: char -> bool, members: seq<string>, key: string, hashes: Option<seq<string>>,
                       ghost d: Document)
    returns (r: seq<string>)
    requires d.initScriptHashes == hashes && key == Name(3) && Written(table, members, d, 3)
    ensures Written(table, r, d, 4)
  {
    if hashes.Some? {
      var quoted := QuoteAll(table, hashes.value);
      r := AppendMember(table, members, key, "[" + (Join(quoted, ",") + "]"), d, 3);
    } else {
      SkipMember(table, members, d, 3);
      r := members;
    }
  }

  /** Appends the members in the fixed order of the source, quoted by %q. */
  method CanonicalizeMrConfigV3Document(table: char -> bool, d: Document) returns (text: string)
    ensures text == GoCanonical(table, d)
  {
    var members := AppendFirstHalf(table, d);
    members := AppendSecondHalf(table, members, d);
    assert SlotsOf(d)[..COUNT] == SlotsOf(d);
    return "{" + (Join(members, ",") + "}");
  }

  method AppendFirstHalf(table: char -> bool, d: Document) returns (members: seq<string>)
    ensures Written(table, members, d, 4)
  {
    members := [];
    members := AppendOptional(table, members, "app_id", d.appId, d, 0);
    members := AppendMember(table, members, "compose_hash", Q.GoQuote(table, d.composeHash), d, 1);
    members := AppendOptional(table, members, "gpu_policy_hash", d.gpuPolicyHash, d, 2);
    members := AppendScripts(table, members, "init_script_hashes", d.initScriptHashes, d);
  }

  method AppendSecondHalf(table: char -> bool, start: seq<string>, d: Document) returns (members: seq<string>)
    requires Written(table, start, d, 4)
    ensures Written(table, members, d, COUNT)
  {
    members := AppendOptional(table, start, "instance_id", d.instanceId, d, 4);
    members := AppendMember(table, members, "key_provider", Q.GoQuote(table, d.keyProvider), d, 5);
    members := AppendOptional(table, members, "key_provider_id", d.keyProviderId, d, 6);
    members := AppendMember(table, members, "version", Numeral(d.version), d, 7);
  }

  // ----- member names

  lemma {:induction false} PrefixLess(a: string, b: string)
    requires |a| < |b| && StartsWith(b, a)
    ensures KeyOrder.LexLess(true, a, b)
  {
    if a != "" {
      assert a[0] == b[0];
      assert b[1..][..|a| - 1] == a[1..] by { assert b[..|a|] == a; }
      PrefixLess(a[1..], b[1..]);
    }
  }

  lemma AdjacentNames(i: nat)
    requires i + 1 < COUNT
    ensures KeyOrder.LexLess(true, Name(i), Name(i + 1))
  {
    if i == 3 {
      ThirdLetter(Name(3), Name(4));
    } else if i == 5 {
      PrefixLess(Name(5), Name(6));
    }
  }

  /** "in..." against "in...": the third letter decides. */
  lemma ThirdLetter(a: string, b: string)
    requires |a| > 2 && |b| > 2 && a[0] == b[0] && a[1] == b[1] && a[2] < b[2] < '\U{80}'
    ensures KeyOrder.LexLess(true, a, b)
  {
    assert a[1..][1..][0] == a[2] && b[1..][1..][0] == b[2];
  }

  lemma {:induction false} NamesAscend(i: nat, j: nat)
    requires i < j < COUNT
    ensures KeyOrder.Before(KeyOrder.Utf16, Name(i), Name(j))
    decreases j - i
  {
    AdjacentNames(j - 1);
    if i + 1 < j {
      NamesAscend(i, j - 1);
      KeyOrder.Transitive(KeyOrder.Utf16, Name(i), Name(j - 1), Name(j));
    }
  }

  lemma NamesDistinct(i: nat, j: nat)
    requires i < COUNT && j < COUNT && i != j
    ensures Name(i) != Name(j)
  {
    NamesAscend(if i < j then i else j, if i < j then j else i);
    KeyOrder.Total(KeyOrder.Utf16, Name(i), Name(i));
  }

  function KeysOf(ms: seq<J.Member>): (ks: seq<string>)
    ensures |ks| == |ms| && forall i :: 0 <= i < |ms| ==> ks[i] == ms[i].key
  {
    seq(|ms|, i requires 0 <= i < |ms| => ms[i].key)
  }

  /** Filled slots come out with ascending keys, each from its own slot. */
  lemma {:induction false} FilledAscends(slots: Slots)
    requires Keyed(slots)
    ensures KeyOrder.Ascending(KeyOrder.Utf16, KeysOf(Filled(slots)))
    ensures forall m :: m in Filled(slots) ==>
              J.WellFormed(m.value) && exists i :: 0 <= i < |slots| && m.key == Name(i) && slots[i] == Some(m)
  {
    if slots != [] {
      var n := |slots| - 1;
      var front := slots[..n];
      FilledAscends(front);
      forall m | m in Filled(front) ensures KeyOrder.Before(KeyOrder.Utf16, m.key, Name(n))
                                    ensures exists i :: 0 <= i < |slots| && m.key == Name(i) && slots[i] == Some(m) {
        var i :| 0 <= i < n && m.key == Name(i) && front[i] == Some(m);
        assert slots[i] == front[i];
        NamesAscend(i, n);
      }
      if slots[n].Some? {
        AscendingSnoc(Filled(front), slots[n].value);
      } else {
        assert Filled(slots) == Filled(front);
      }
    }
  }

  lemma AscendingSnoc(ms: seq<J.Member>, last: J.Member)
    requires KeyOrder.Ascending(KeyOrder.Utf16, KeysOf(ms))
    requires forall m :: m in ms ==> KeyOrder.Before(KeyOrder.Utf16, m.key, last.key)
    ensures KeyOrder.Ascending(KeyOrder.Utf16, KeysOf(ms + [last]))
  {
    assert forall i :: 0 <= i < |ms| ==> ms[i] in ms;
    assert KeysOf(ms + [last]) == KeysOf(ms) + [last.key];
  }

  /** Member names are strictly ascending in UTF-16 code units, as section 3.2.3 of RFC 8785 requires. */
  lemma NamesAreSorted(d: Document)
    ensures KeyOrder.Ascending(KeyOrder.Utf16, KeysOf(Members(d)))
  {
    FilledAscends(SlotsOf(d));
  }

  // ----- reading a document back

  function Lookup(ms: seq<J.Member>, k: string): Option<J.Tree> {
    if ms == [] then None
    else if ms[|ms| - 1].key == k then Some(ms[|ms| - 1].value)
    else Lookup(ms[..|ms| - 1], k)
  }

  /** At most one slot answers to a key. */
  lemma {:induction false} LookupFilled(slots: Slots, k: string, i: nat)
    requires forall j :: 0 <= j < |slots| && slots[j].Some? ==> (slots[j].value.key == k <==> i == j)
    ensures Lookup(Filled(slots), k) ==
            if i < |slots| && slots[i].Some? then Some(slots[i].value.value) else None
  {
    if slots != [] {
      var n := |slots| - 1;
      LookupFilled(slots[..n], k, i);
      if slots[n].Some? {
        LookupSnoc(Filled(slots[..n]), slots[n].value, k);
      } else {
        assert Filled(slots) == Filled(slots[..n]);
      }
    }
  }

  lemma LookupMember(d: Document, i: nat)
    requires i < COUNT
    ensures Lookup(Members(d), Name(i)) == if MemberAt(d, i).Some? then Some(MemberAt(d, i).value.value) else None
  {
    var slots := SlotsOf(d);
    forall j | 0 <= j < COUNT && slots[j].Some? ensures slots[j].value.key == Name(i) <==> i == j {
      if i != j { NamesDistinct(i, j); }
    }
    LookupFilled(slots, Name(i), i);
  }

  lemma LookupSnoc(ms: seq<J.Member>, m: J.Member, k: string)
    ensures Lookup(ms + [m], k) == if m.key == k then Some(m.value) else Lookup(ms, k)
  {
    assert (ms + [m])[..|ms|] == ms;
  }

  function StrOf(t: Option<J.Tree>): string {
    if t.Some? && t.value.Str? then t.value.s else ""
  }

  function StrsOf(t: Option<J.Tree>): Option<seq<string>> {
    if t.Some? && t.value.Arr? then
      Some(seq(|t.value.items|, i requires 0 <= i < |t.value.items| => StrOf(Some(t.value.items[i]))))
    else None
  }

  function NumOf(t: Option<J.Tree>): nat {
    if t.Some? && t.value.Num? then Number(t.value.token) else 0
  }

  function DocumentFrom(ms: seq<J.Member>): Document {
    Document(NumOf(Lookup(ms, "version")), StrOf(Lookup(ms, "app_id")), StrOf(Lookup(ms, "compose_hash")),
             StrOf(Lookup(ms, "gpu_policy_hash")), StrOf(Lookup(ms, "key_provider")),
             StrOf(Lookup(ms, "key_provider_id")), StrOf(Lookup(ms, "instance_id")),
             StrsOf(Lookup(ms, "init_script_hashes")))
  }

  /** A reader of canonical documents. */
  function Read(text: string): Option<Document> {
    match J.Parse(text)
    case Some(Obj(ms)) => Some(DocumentFrom(ms))
    case _ => None
  }

  lemma MembersGiveDocument(d: Document)
    ensures DocumentFrom(Members(d)) == d
  {
    var ms := Members(d);
    assert StrOf(Lookup(ms, "app_id")) == d.appId by { LookupMember(d, 0); }
    assert StrOf(Lookup(ms, "compose_hash")) == d.composeHash by { LookupMember(d, 1); }
    assert StrOf(Lookup(ms, "gpu_policy_hash")) == d.gpuPolicyHash by { LookupMember(d, 2); }
    assert StrsOf(Lookup(ms, "init_script_hashes")) == d.initScriptHashes by { ScriptsBack(d); }
    assert StrOf(Lookup(ms, "instance_id")) == d.instanceId by { LookupMember(d, 4); }
    assert StrOf(Lookup(ms, "key_provider")) == d.keyProvider by { LookupMember(d, 5); }
    assert StrOf(Lookup(ms, "key_provider_id")) == d.keyProviderId by { LookupMember(d, 6); }
    assert NumOf(Lookup(ms, "version")) == d.version by {
      LookupMember(d, 7);
      NumberOfNumeral(d.version);
    }
  }

  lemma ScriptsBack(d: Document)
    ensures StrsOf(Lookup(Members(d), "init_script_hashes")) == d.initScriptHashes
  {
    LookupMember(d, 3);
    if d.initScriptHashes.Some? {
      assert StrsOf(Some(J.Arr(StrItems(d.initScriptHashes.value)))).value == d.initScriptHashes.value;
    }
  }

  /** The reader recovers every document, so absent and empty script lists print differently. */
  lemma ReadInvertsCanonical(d: Document)
    ensures Read(Canonical(d)) == Some(d)
  {
    FilledAscends(SlotsOf(d));
    J.ParseInvertsPrint(false, J.Obj(Members(d)));
    MembersGiveDocument(d);
  }

  lemma CanonicalInjective(a: Document, b: Document)
    requires Canonical(a) == Canonical(b)
    ensures a == b
  {
    ReadInvertsCanonical(a);
    ReadInvertsCanonical(b);
  }

  // ----- the JavaScript canonicaliser: collect the defined keys, sort them, print each

  ghost function PresentNames(slots: Slots): set<string> {
    set i | 0 <= i < |slots| && slots[i].Some? :: Name(i)
  }

  /** The members as JavaScript lists them: by the sorted key set, looked up one by one. */
  ghost function JsMembers(d: Document): seq<J.Member> {
    var ks := KeyOrder.Sorted(KeyOrder.Utf16, PresentNames(SlotsOf(d)));
    seq(|ks|, i requires 0 <= i < |ks| => J.Member(ks[i], Lookup(Members(d), ks[i]).GetOr(J.Null)))
  }

  ghost function JsCanonical(d: Document): string {
    "{" + Join(MemberTexts(JsMembers(d)), ",") + "}"
  }

  /** Go's fixed member order and JavaScript's sorted one give the same text. */
  lemma FixedOrderIsSortedOrder(d: Document)
    ensures JsCanonical(d) == Canonical(d)
  {
    JsMembersAreMembers(d);
    JoinMembers(Members(d));
  }

  lemma JsMembersAreMembers(d: Document)
    ensures JsMembers(d) == Members(d)
  {
    var slots, ms := SlotsOf(d), Members(d);
    FilledAscends(slots);
    FilledKeys(slots);
    KeyOrder.SortedUnique(KeyOrder.Utf16, KeysOf(ms), KeyOrder.Sorted(KeyOrder.Utf16, PresentNames(slots)));
    forall i | 0 <= i < |ms| ensures JsMembers(d)[i] == ms[i] {
      assert ms[i] in ms;
      var n :| 0 <= n < COUNT && ms[i].key == Name(n) && slots[n] == Some(ms[i]);
      LookupMember(d, n);
    }
  }

  lemma {:induction false} FilledKeys(slots: Slots)
    requires Keyed(slots)
    ensures KeyOrder.Elements(KeysOf(Filled(slots))) == PresentNames(slots)
  {
    if slots != [] {
      var n := |slots| - 1;
      FilledKeys(slots[..n]);
      var ks := KeysOf(Filled(slots[..n]));
      PresentStep(slots);
      if slots[n].Some? {
        assert KeysOf(Filled(slots)) == ks + [Name(n)];
        assert forall k :: k in ks + [Name(n)] <==> k in ks || k == Name(n);
        assert forall k :: k in KeyOrder.Elements(ks) <==> k in ks;
      } else {
        assert Filled(slots) == Filled(slots[..n]);
      }
    }
  }

  lemma PresentStep(slots: Slots)
    requires slots != []
    ensures var n := |slots| - 1;
            PresentNames(slots) == PresentNames(slots[..n]) + if slots[n].Some? then {Name(n)} else {}
  {
    var n := |slots| - 1;
    forall k ensures k in PresentNames(slots) <==>
                     k in PresentNames(slots[..n]) + if slots[n].Some? then {Name(n)} else {}
    {
      if k in PresentNames(slots[..n]) {
        var i :| 0 <= i < n && slots[..n][i].Some? && Name(i) == k;
        assert slots[i].Some?;
      }
      if k in PresentNames(slots) {
        var i :| 0 <= i < |slots| && slots[i].Some? && Name(i) == k;
        assert i < n ==> slots[..n][i].Some?;
      }
    }
  }
}
