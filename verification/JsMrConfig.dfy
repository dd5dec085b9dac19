/** The JavaScript builder, generators and verifier of mr_config_id, and where they agree with Go's. */
module JsMrConfig {
  import opened Text
  import Hex
  import J = Json
  import opened MrConfig
  import opened MrConfigId
  import MrConfigQuoting
  import Quoting

  // ----- hex fields

  /** replace(/^0x/i, ""): one prefix in either case, where Go strips "0x" and then "0X". */
  function StripOnce(value: string): string {
    if |value| >= 2 && value[0] == '0' && (value[1] == 'x' || value[1] == 'X') then value[2..] else value
  }

  function JsBare(value: string): string {
    Hex.Lower(StripOnce(value))
  }

  predicate IsLowerHex(c: char) {
    '0' <= c <= '9' || 'a' <= c <= 'f'
  }

  predicate LowerHex(s: string) {
    forall i :: 0 <= i < |s| ==> IsLowerHex(s[i])
  }

  /** normalizeHex: only digits, and an even number of them. */
  function JsNormalizeHex(value: string): Option<string> {
    if LowerHex(JsBare(value)) && |JsBare(value)| % 2 == 0 then Some(JsBare(value)) else None
  }

  predicate JsSized(value: string, size: nat) {
    JsNormalizeHex(value).Some? && |JsBare(value)| == 2 * size
  }

  /** An optional field: dropped when it is empty before or after normalising. */
  predicate JsOptional(value: string, size: nat) {
    value == "" || (JsNormalizeHex(value).Some? && (JsBare(value) == "" || |JsBare(value)| == 2 * size))
  }

  predicate JsAcceptable(input: Input) {
    && JsSized(input.composeHash, 32)
    && JsOptional(input.appId, 20)
    && JsOptional(input.gpuPolicyHash, 32)
    && (input.keyProviderId == "" || JsNormalizeHex(input.keyProviderId).Some?)
    && JsOptional(input.instanceId, 20)
    && (input.initScriptHashes.Some? ==>
          |input.initScriptHashes.value| <= MAX_INIT_SCRIPTS &&
          forall i :: 0 <= i < |input.initScriptHashes.value| ==> JsSized(input.initScriptHashes.value[i], 32))
  }

  function JsBareAll(values: seq<string>): (r: seq<string>)
    ensures |r| == |values| && forall i :: 0 <= i < |values| ==> r[i] == JsBare(values[i])
  {
    seq(|values|, i requires 0 <= i < |values| => JsBare(values[i]))
  }

  function JsDocumentOf(input: Input): Document {
    Document(3, JsBare(input.appId), JsBare(input.composeHash), JsBare(input.gpuPolicyHash), input.keyProvider,
             JsBare(input.keyProviderId), JsBare(input.instanceId),
             if input.initScriptHashes.Some? then Some(JsBareAll(input.initScriptHashes.value)) else None)
  }

  method JsHashes(values: seq<string>) returns (r: Option<seq<string>>)
    ensures r.Some? <==> |values| <= MAX_INIT_SCRIPTS && forall i :: 0 <= i < |values| ==> JsSized(values[i], 32)
    ensures r.Some? ==> r.value == JsBareAll(values)
  {
    if |values| > MAX_INIT_SCRIPTS { return None; }
    var hashes: seq<string> := [];
    for index := 0 to |values|
      invariant hashes == JsBareAll(values[..index])
      invariant forall i :: 0 <= i < index ==> JsSized(values[i], 32)
    {
      if !JsSized(values[index], 32) { return None; }
      hashes := hashes + [JsBare(values[index])];
    }
    assert values[..|values|] == values;
    return Some(hashes);
  }

  /** buildMrConfigV3Document: None stands for the errors it throws. */
  method BuildJsDocument(input: Input) returns (r: Option<Document>)
    ensures r.Some? <==> JsAcceptable(input)
    ensures r.Some? ==> r.value == JsDocumentOf(input)
  {
    if !JsSized(input.composeHash, 32) { return None; }
    var document := Document(3, "", JsBare(input.composeHash), "", input.keyProvider, "", "", None);

    if input.appId != "" {
      if JsNormalizeHex(input.appId).None? { return None; }
      var appId := JsBare(input.appId);
      if appId != "" {
        if |appId| != 40 { return None; }
        document := document.(appId := appId);
      }
    }
    if input.gpuPolicyHash != "" {
      if JsNormalizeHex(input.gpuPolicyHash).None? { return None; }
      var gpuPolicyHash := JsBare(input.gpuPolicyHash);
      if gpuPolicyHash != "" {
        if |gpuPolicyHash| != 64 { return None; }
        document := document.(gpuPolicyHash := gpuPolicyHash);
      }
    }
    if input.keyProviderId != "" {
      if JsNormalizeHex(input.keyProviderId).None? { return None; }
      document := document.(keyProviderId := JsBare(input.keyProviderId));
    }
    if input.instanceId != "" {
      if JsNormalizeHex(input.instanceId).None? { return None; }
      var instanceId := JsBare(input.instanceId);
      if instanceId != "" {
        if |instanceId| != 40 { return None; }
        document := document.(instanceId := instanceId);
      }
    }
    if input.initScriptHashes.Some? {
      var hashes := JsHashes(input.initScriptHashes.value);
      if hashes.None? { return None; }
      document := document.(initScriptHashes := hashes);
    }
    return Some(document);
  }

  // ----- the builders compared

  /** Go strips both prefixes of such a spelling, JavaScript one. */
  predicate Doubled(value: string) {
    |value| >= 4 && value[..4] == "0x0X"
  }

  predicate PrefixOnly(value: string) {
    value == "0x" || value == "0X"
  }

  predicate AnyDoubled(input: Input) {
    Doubled(input.composeHash) || Doubled(input.appId) || Doubled(input.gpuPolicyHash) ||
    Doubled(input.keyProviderId) || Doubled(input.instanceId) ||
    (input.initScriptHashes.Some? &&
     exists i :: 0 <= i < |input.initScriptHashes.value| && Doubled(input.initScriptHashes.value[i]))
  }

  predicate AnyPrefixOnly(input: Input) {
    PrefixOnly(input.appId) || PrefixOnly(input.gpuPolicyHash) || PrefixOnly(input.instanceId)
  }

  lemma StripsAgree(value: string)
    ensures !Doubled(value) ==> StripOnce(value) == Hex.Strip(value)
    ensures Doubled(value) ==> |StripOnce(value)| >= 2 && StripOnce(value)[1] == 'X'
  {
    if |value| >= 2 {
      assert value[..2] == [value[0], value[1]];
      if value[..2] == "0x" && |value| >= 4 {
        assert value[2..][..2] == [value[2], value[3]] && value[..4] == [value[0], value[1], value[2], value[3]];
      }
    }
  }

  lemma LowerFront(s: string)
    requires |s| >= 2 && Hex.Lower(s) == s
    ensures Hex.Lower(s[2..]) == s[2..]
    ensures forall i :: 0 <= i < 2 ==> (IsLowerHex(s[i]) <==> J.HexValue(s[i]).Some?)
  {
    Hex.PairOfDigits(s[0], s[1], s[2..]);
    assert s == [s[0], s[1]] + s[2..];
    var t := [Hex.LowerChar(s[0]), Hex.LowerChar(s[1])] + Hex.Lower(s[2..]);
    assert t[2..] == Hex.Lower(s[2..]) && t[0] == s[0] && t[1] == s[1];
  }

  /** The digits-only test and Go's decoder accept the same lower-case texts. */
  lemma {:induction false} LowerHexDecodes(s: string)
    requires Hex.Lower(s) == s
    ensures LowerHex(s) && |s| % 2 == 0 <==> Hex.Decode(s).Some?
  {
    if |s| >= 2 {
      LowerFront(s);
      LowerHexDecodes(s[2..]);
      LowerHexFront(s);
      assert |s[2..]| % 2 == |s| % 2;
    }
  }

  lemma LowerHexFront(s: string)
    requires |s| >= 2
    ensures LowerHex(s) <==> IsLowerHex(s[0]) && IsLowerHex(s[1]) && LowerHex(s[2..])
  {
    if LowerHex(s[2..]) {
      forall i | 2 <= i < |s| ensures IsLowerHex(s[i]) {
        assert s[i] == s[2..][i - 2];
      }
    }
  }

  /** One field: what JavaScript accepts, in Go's terms. */
  lemma FieldsAgree(value: string)
    ensures JsNormalizeHex(value).Some? <==> !Doubled(value) && Hex.Decode(Hex.Strip(value)).Some?
    ensures !Doubled(value) ==> JsBare(value) == Bare(value)
    ensures |JsBare(value)| == |StripOnce(value)|
  {
    StripsAgree(value);
    Hex.LowerLength(StripOnce(value));
    LowerHexDecodes(JsBare(value));
    Hex.DecodeLower(StripOnce(value));
    if Doubled(value) {
      LowerAt(StripOnce(value), 1);
    }
  }

  lemma {:induction false} LowerAt(s: string, i: nat)
    requires i < |s|
    ensures |Hex.Lower(s)| == |s| && Hex.Lower(s)[i] == Hex.LowerChar(s[i])
  {
    Hex.LowerLength(s);
    if i > 0 {
      LowerAt(s[1..], i - 1);
    }
  }

  lemma SizedAgree(value: string, size: nat)
    ensures JsSized(value, size) <==> !Doubled(value) && SpellsBytes(value, size)
  {
    FieldsAgree(value);
    StripsAgree(value);
  }

  lemma OptionalAgree(value: string, size: nat)
    requires size > 0
    ensures JsOptional(value, size) <==>
            !Doubled(value) && (value == "" || SpellsBytes(value, size) || PrefixOnly(value))
  {
    FieldsAgree(value);
    StripsAgree(value);
    if PrefixOnly(value) {
      assert value[2..] == "";
    }
  }

  lemma AcceptancesAgree(input: Input)
    ensures JsAcceptable(input) && !AnyPrefixOnly(input) ==> Acceptable(input)
    ensures Acceptable(input) && !AnyDoubled(input) ==> JsAcceptable(input)
    ensures JsAcceptable(input) ==> !AnyDoubled(input)
    ensures Acceptable(input) ==> !AnyPrefixOnly(input)
  {
    SizedAgree(input.composeHash, 32);
    OptionalAgree(input.appId, 20);
    OptionalAgree(input.gpuPolicyHash, 32);
    OptionalAgree(input.instanceId, 20);
    FieldsAgree(input.keyProviderId);
    PrefixSpellsNothing();
    if input.initScriptHashes.Some? {
      var values := input.initScriptHashes.value;
      forall i | 0 <= i < |values|
        ensures JsSized(values[i], 32) <==> !Doubled(values[i]) && SpellsBytes(values[i], 32)
      {
        SizedAgree(values[i], 32);
      }
    }
  }

  lemma PrefixSpellsNothing()
    ensures forall v, size: nat :: PrefixOnly(v) && size > 0 ==> !SpellsBytes(v, size)
  {
    forall v, size: nat | PrefixOnly(v) && size > 0 ensures !SpellsBytes(v, size) {
      StripsAgree(v);
      assert v[2..] == "";
    }
  }

  lemma DocumentsAgree(input: Input)
    requires !AnyDoubled(input)
    ensures JsDocumentOf(input) == DocumentOf(input)
  {
    FieldsAgree(input.composeHash);
    FieldsAgree(input.appId);
    FieldsAgree(input.gpuPolicyHash);
    FieldsAgree(input.keyProviderId);
    FieldsAgree(input.instanceId);
    if input.initScriptHashes.Some? {
      var values := input.initScriptHashes.value;
      forall i | 0 <= i < |values| ensures JsBareAll(values)[i] == BareAll(values)[i] {
        assert !Doubled(values[i]);
        FieldsAgree(values[i]);
      }
      assert JsBareAll(values) == BareAll(values);
    }
  }

  function GoBuild(input: Input): Option<Document> {
    if Acceptable(input) then Some(DocumentOf(input)) else None
  }

  function JsBuild(input: Input): Option<Document> {
    if JsAcceptable(input) then Some(JsDocumentOf(input)) else None
  }

  /** The builders accept the same inputs and build the same documents, exactly unless an
      input Go accepts carries a doubled prefix or one JavaScript accepts has an optional
      field that is nothing but a prefix. */
  lemma BuildersAgree(input: Input)
    ensures GoBuild(input) == JsBuild(input) <==>
            !(Acceptable(input) && AnyDoubled(input)) && !(JsAcceptable(input) && AnyPrefixOnly(input))
  {
    AcceptancesAgree(input);
    if !AnyDoubled(input) {
      DocumentsAgree(input);
    }
  }

  function ComposeOnly(appId: string, composeHash: string): Input {
    Input(appId, composeHash, "", "none", "", "", None)
  }

  lemma StripDoubled(digits: string)
    ensures Hex.Strip("0x0X" + digits) == digits && Doubled("0x0X" + digits)
  {
    var s := "0x0X" + digits;
    assert s[..2] == "0x" && s[2..] == "0X" + digits && s[..4] == "0x0X";
    assert ("0X" + digits)[..2] == "0X" && ("0X" + digits)[2..] == digits;
  }

  /** Go accepts a doubled prefix in front of any 32-byte compose hash, JavaScript does not. */
  lemma DoubledPrefixDiffers(digits: string)
    requires Hex.Decode(digits).Some? && |digits| == 64
    ensures GoBuild(ComposeOnly("", "0x0X" + digits)).Some? && JsBuild(ComposeOnly("", "0x0X" + digits)).None?
  {
    StripDoubled(digits);
    SizedAgree("0x0X" + digits, 32);
  }

  /** JavaScript accepts an application id that is only a prefix, Go does not. */
  lemma BarePrefixDiffers(digits: string)
    requires Hex.Decode(digits).Some? && |digits| == 64
    ensures GoBuild(ComposeOnly("0x", digits)).None? && JsBuild(ComposeOnly("0x", digits)).Some?
  {
    StripSpelling(digits);
    HexIsNotDoubled(digits);
    SizedAgree(digits, 32);
    OptionalAgree("0x", 20);
    PrefixSpellsNothing();
  }

  lemma HexIsNotDoubled(digits: string)
    requires Hex.Decode(digits).Some?
    ensures !Doubled(digits)
  {
    if |digits| >= 4 {
      assert digits[..4][1] == digits[1] != 'x';
    }
  }

  /** A pair of inputs on which the builders disagree, one each way. */
  lemma BuildersDiffer()
    ensures var zeros := Hex.Encode(seq(32, _ => 0));
            GoBuild(ComposeOnly("", "0x0X" + zeros)) != JsBuild(ComposeOnly("", "0x0X" + zeros)) &&
            GoBuild(ComposeOnly("0x", zeros)) != JsBuild(ComposeOnly("0x", zeros))
  {
    var bytes: seq<Byte> := seq(32, _ => 0);
    Hex.DecodeEncode(bytes);
    DoubledPrefixDiffers(Hex.Encode(bytes));
    BarePrefixDiffers(Hex.Encode(bytes));
  }

  // ----- the version 2 payload

  /** getMrConfigId: a payload filled at a moving offset, then packed. */
  method JsGetMrConfigId(lib: Library, composeHash: seq<Byte>, appId: seq<Byte>, provider: Byte,
                         providerId: seq<Byte>)
    returns (result: array<Byte>)
    ensures fresh(result)
    ensures result[..] == Packed(2, lib.keccak(PreImage(composeHash, appId, provider, providerId)))
  {
    var payload := new Byte[|composeHash| + |appId| + 1 + |providerId|](_ => 0);
    var offset := 0;
    SetAt(payload, composeHash, offset);
    offset := offset + |composeHash|;
    SetAt(payload, appId, offset);
    offset := offset + |appId|;
    payload[offset] := provider;
    assert payload[..offset] == composeHash + appId;
    offset := offset + 1;
    assert payload[..offset] == composeHash + appId + [provider];
    SetAt(payload, providerId, offset);
    assert payload[..] == PreImage(composeHash, appId, provider, providerId);
    result := Pack(2, lib.keccak(payload[..]));
  }

  /** Uint8Array.prototype.set. */
  method SetAt(a: array<Byte>, bytes: seq<Byte>, offset: nat)
    requires offset + |bytes| <= a.Length
    modifies a
    ensures a[..offset + |bytes|] == old(a[..offset]) + bytes
    ensures forall k :: offset + |bytes| <= k < a.Length ==> a[k] == old(a[k])
  {
    for i := 0 to |bytes|
      invariant forall k :: 0 <= k < i ==> a[offset + k] == bytes[k]
      invariant forall k :: 0 <= k < offset || offset + i <= k < a.Length ==> a[k] == old(a[k])
    {
      a[offset + i] := bytes[i];
    }
  }

  // ----- verification

  predicate Prefixed(value: string) {
    |value| >= 2 && value[..2] == "0x" && !Doubled(value)
  }

  /** What the input's types and documented sizes promise, for the fields the layout reads:
      the compose hash in version 1, the four hashed fields in version 2, and in version 3
      spellings without doubled or bare prefixes and a key provider that %q and JSON quote
      alike, as the four known ones are. */
  predicate WellTyped(lib: Library, input: Input, version: Byte) {
    && (version in {1, 2} ==> Prefixed(input.composeHash) && SpellsBytes(input.composeHash, 32))
    && (version == 2 ==>
          Prefixed(input.appId) && SpellsBytes(input.appId, 20) && KeyProviderByte(input.keyProvider).Some? &&
          Prefixed(input.keyProviderId) && Hex.Decode(Hex.Strip(input.keyProviderId)).Some?)
    && (version == 3 ==>
          !AnyDoubled(input) && !AnyPrefixOnly(input) && Quoting.QuotedAlike(lib.printable, input.keyProvider))
  }

  function Bytes(value: string): seq<Byte> {
    Hex.Decode(StripOnce(value)).GetOr([])
  }

  /** The id verifyMrConfigId expects for a version; None when it throws or knows no such version. */
  ghost function Expected(lib: Library, version: Byte, input: Input): Option<seq<Byte>>
    requires WellTyped(lib, input, version)
  {
    if version == 1 then
      PrefixedStrip(input.composeHash);
      Hex.EncodeDecode(StripOnce(input.composeHash));
      Some(IdV1(Bytes(input.composeHash)))
    else if version == 2 then
      Some(Packed(2, lib.keccak(PreImage(Bytes(input.composeHash), Bytes(input.appId),
                                         KeyProviderByte(input.keyProvider).value, Bytes(input.keyProviderId)))))
    else if version == 3 && JsAcceptable(input) then
      Some(Packed(3, lib.sha(DOMAIN + "\0" + JsCanonical(JsDocumentOf(input)))))
    else None
  }

  ghost predicate JsVerify(lib: Library, h: string, input: Input)
    requires WellTyped(lib, input, VersionOfDigits(JsBare(h)))
  {
    var version := VersionOfDigits(JsBare(h));
    Expected(lib, version, input).Some? && Hex.Encode(Expected(lib, version, input).value) == JsBare(h)
  }

  lemma PrefixedStrip(value: string)
    requires Prefixed(value)
    ensures Hex.TrimPrefix(value, "0x") == StripOnce(value) == Hex.Strip(value)
  {
    StripsAgree(value);
  }

  lemma ExpectedIsRecomputed(lib: Library, version: Byte, input: Input)
    requires WellTyped(lib, input, version)
    ensures Expected(lib, version, input) == Recomputed(lib, version, input)
  {
    if version == 1 {
      PrefixedStrip(input.composeHash);
    } else if version == 2 {
      ExpectedV2(lib, input);
    } else if version == 3 {
      AcceptancesAgree(input);
      DocumentsAgree(input);
      if Acceptable(input) {
        MrConfigQuoting.BuiltTextIsCanonical(lib.printable, input);
      }
    }
  }

  lemma ExpectedV2(lib: Library, input: Input)
    requires WellTyped(lib, input, 2)
    ensures Expected(lib, 2, input) == Recomputed(lib, 2, input)
  {
    PrefixedStrip(input.composeHash);
    PrefixedStrip(input.appId);
    PrefixedStrip(input.keyProviderId);
    Hex.EncodeDecode(Hex.Strip(input.composeHash));
    Hex.EncodeDecode(Hex.Strip(input.appId));
  }

  /** On well-typed inputs the two verifiers give the same answer for every id text, except
      that Go also accepts a doubled prefix. */
  lemma VerifiersAgree(lib: Library, h: string, input: Input)
    requires WellTyped(lib, input, VersionOfDigits(JsBare(h)))
    ensures JsVerify(lib, h, input) <==> Accepts(lib, h, input) && !Doubled(h)
  {
    FieldsAgree(h);
    ExpectedIsRecomputed(lib, VersionOfDigits(JsBare(h)), input);
    if Doubled(h) {
      LowerAt(StripOnce(h), 1);
      StripsAgree(h);
      DoubledNamesNothing(JsBare(h));
    }
  }

  lemma DoubledNamesNothing(bare: string)
    requires |bare| >= 2 && bare[1] == 'x'
    ensures VersionOfDigits(bare) == 0
  {
    if |bare| == 96 {
      assert bare[..2][1] == 'x';
    }
  }
}
