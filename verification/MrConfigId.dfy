/** The 48-byte mr_config_id: packing it for its three versions and verifying one. */
module MrConfigId {
  import opened Text
  import Hex
  import opened MrConfig
  import MrConfigQuoting

  type Byte = Hex.Byte

  type Digest = d: seq<Byte> | |d| == 32 witness seq(32, _ => 0)

  /** What is used and not modelled: Keccak-256 of bytes, SHA-256 of a text, and the table
      of characters that %q takes for printable. Nothing is assumed of them. */
  datatype Library = Library(keccak: seq<Byte> -> Digest, sha: string -> Digest, printable: char -> bool)

  const ID_LENGTH: nat := 48
  const PADDING: nat := 15

  const DOMAIN: string := "dstack-mr-config-v3:"

  function Packed(version: Byte, digest: Digest): (id: seq<Byte>)
    ensures |id| == ID_LENGTH
  {
    [version] + digest + seq(PADDING, _ => 0)
  }

  /** A zeroed 48-byte array, the version in front, the digest copied behind it. */
  method Pack(version: Byte, digest: Digest) returns (result: array<Byte>)
    ensures fresh(result) && result[..] == Packed(version, digest)
  {
    result := new Byte[ID_LENGTH](_ => 0);
    result[0] := version;
    for i := 0 to 32
      invariant result[0] == version
      invariant forall k :: 0 <= k < i ==> result[k + 1] == digest[k]
      invariant forall k :: i < k < ID_LENGTH ==> result[k] == 0
    {
      result[i + 1] := digest[i];
    }
  }

  // ----- the three generators

  function KeyProviderByte(kind: string): Option<Byte> {
    if kind == "none" then Some(0)
    else if kind == "local" then Some(1)
    else if kind == "kms" then Some(2)
    else if kind == "tpm" then Some(3)
    else None
  }

  /** The bytes hashed for version 2. */
  function PreImage(composeHash: seq<Byte>, appId: seq<Byte>, provider: Byte, providerId: seq<Byte>): seq<Byte> {
    composeHash + appId + [provider] + providerId
  }

  /** The text hashed for version 3. */
  function SignedText(lib: Library, d: Document): string {
    DOMAIN + "\0" + GoCanonical(lib.printable, d)
  }

  function IdV1(composeHash: Digest): seq<Byte> {
    Packed(1, composeHash)
  }

  function IdV3(lib: Library, d: Document): seq<Byte> {
    Packed(3, lib.sha(SignedText(lib, d)))
  }

  function DecodeField(value: string, size: nat, field: string): Result<seq<Byte>, Error> {
    match Hex.Decode(Hex.TrimPrefix(value, "0x"))
    case None => Err(NotHex(field))
    case Some(bytes) => if |bytes| != size then Err(BadLength(field)) else Ok(bytes)
  }

  /** GetMrConfigIdHex before its final hex encoding. Unlike the V3 builder it strips
      only the lower-case prefix. */
  function IdV2(lib: Library, composeHash: string, appId: string, kind: string, providerId: string)
    : Result<seq<Byte>, Error>
  {
    match DecodeField(composeHash, 32, "compose_hash")
    case Err(e) => Err(e)
    case Ok(c) =>
      match DecodeField(appId, 20, "app_id")
      case Err(e) => Err(e)
      case Ok(a) =>
        match Hex.Decode(Hex.TrimPrefix(providerId, "0x"))
        case None => Err(NotHex("key_provider_id"))
        case Some(id) =>
          match KeyProviderByte(kind)
          case None => Err(UnknownKeyProvider)
          case Some(b) => Ok(Packed(2, lib.keccak(PreImage(c, a, b, id))))
  }

  method GetMrConfigId(lib: Library, composeHash: Digest, appId: seq<Byte>, kind: string, providerId: seq<Byte>)
    returns (result: array<Byte>, error: Option<Error>)
    ensures error == if KeyProviderByte(kind).None? then Some(UnknownKeyProvider) else None
    ensures error == None ==>
              var payload := PreImage(composeHash, appId, KeyProviderByte(kind).value, providerId);
              result[..] == Packed(2, lib.keccak(payload))
  {
    var kpByte := KeyProviderByte(kind);
    if kpByte.None? {
      result := new Byte[ID_LENGTH](_ => 0);
      return result, Some(UnknownKeyProvider);
    }
    var input: seq<Byte> := [];
    input := input + composeHash;
    input := input + appId;
    input := input + [kpByte.value];
    input := input + providerId;
    assert input == PreImage(composeHash, appId, kpByte.value, providerId);
    result := Pack(2, lib.keccak(input));
    error := None;
  }

  method GetMrConfigIdHex(lib: Library, composeHash: string, appId: string, kind: string, providerId: string)
    returns (r: Result<string, Error>)
    ensures match IdV2(lib, composeHash, appId, kind, providerId)
            case Ok(id) => r == Ok("0x" + Hex.Encode(id))
            case Err(e) => r == Err(e)
  {
    var c := DecodeField(composeHash, 32, "compose_hash");
    if c.Err? { return Err(c.error); }
    var a := DecodeField(appId, 20, "app_id");
    if a.Err? { return Err(a.error); }
    var bareId := Hex.TrimPrefix(providerId, "0x");
    var id: seq<Byte> := [];
    if bareId != "" {
      var decoded := Hex.Decode(bareId);
      if decoded.None? { return Err(NotHex("key_provider_id")); }
      id := decoded.value;
    }
    var result, error := GetMrConfigId(lib, c.value, a.value, kind, id);
    if error.Some? { return Err(error.value); }
    return Ok("0x" + Hex.Encode(result[..]));
  }

  method GetMrConfigIdV3Hex(lib: Library, input: Input) returns (r: Result<string, Error>)
    ensures r.Ok? <==> Acceptable(input)
    ensures r.Ok? ==> r.value == "0x" + Hex.Encode(IdV3(lib, DocumentOf(input)))
    ensures BuildError(input) == ErrorOf(r)
  {
    var document := BuildMrConfigV3Document(input);
    if document.Err? { return Err(document.error); }
    var text := CanonicalizeMrConfigV3Document(lib.printable, document.value);
    var result := Pack(3, lib.sha(DOMAIN + "\0" + text));
    return Ok("0x" + Hex.Encode(result[..]));
  }

  // ----- verification

  function EqualFold(a: string, b: string): bool {
    Hex.Lower(a) == Hex.Lower(b)
  }

  /** The id an input has for a version, when the input determines one. */
  function Recomputed(lib: Library, version: Byte, input: Input): Option<seq<Byte>> {
    if version == 1 then
      if SpellsBytes(input.composeHash, 32) then
        DecodedCompose(input.composeHash);
        Some(IdV1(Hex.Decode(Hex.Strip(input.composeHash)).value))
      else None
    else if version == 2 then
      match IdV2(lib, input.composeHash, input.appId, input.keyProvider, input.keyProviderId)
      case Ok(id) => Some(id)
      case Err(_) => None
    else if version == 3 then
      if Acceptable(input) then Some(IdV3(lib, DocumentOf(input))) else None
    else None
  }

  lemma DecodedCompose(value: string)
    requires SpellsBytes(value, 32)
    ensures |Hex.Decode(Hex.Strip(value)).value| == 32
    ensures Hex.Decode(Bare(value)) == Hex.Decode(Hex.Strip(value))
  {
    Hex.EncodeDecode(Hex.Strip(value));
    Hex.DecodeLower(Hex.Strip(value));
  }

  /** The version that the first two of 96 digits name. */
  function VersionOfDigits(bare: string): Byte {
    if |bare| != 2 * ID_LENGTH then 0
    else if bare[..2] == "01" then 1
    else if bare[..2] == "02" then 2
    else if bare[..2] == "03" then 3
    else 0
  }

  function NamedVersion(h: string): Byte {
    VersionOfDigits(Bare(h))
  }

  /** The error of recomputing an id, when a version is named. */
  function VerifyError(lib: Library, version: Byte, input: Input): Option<Error> {
    if version == 1 then ErrorOf(SizedHex(input.composeHash, 32, "compose_hash"))
    else if version == 2 then
      ErrorOf(IdV2(lib, input.composeHash, input.appId, input.keyProvider, input.keyProviderId))
    else if version == 3 then BuildError(input)
    else None
  }

  /** Dispatches on the version byte and compares with the recomputed id; fails exactly
      when the named version cannot be recomputed from the input. */
  method VerifyMrConfigIdAnyVersion(lib: Library, mrConfigId: string, input: Input)
    returns (r: Result<bool, Error>)
    ensures NamedVersion(mrConfigId) == 0 ==> r == Ok(false)
    ensures NamedVersion(mrConfigId) != 0 ==>
              (r.Ok? <==> Recomputed(lib, NamedVersion(mrConfigId), input).Some?)
    ensures VerifyError(lib, NamedVersion(mrConfigId), input) == ErrorOf(r)
    ensures NamedVersion(mrConfigId) != 0 && r.Ok? ==>
              r.value == (Bare(mrConfigId) == Hex.Encode(Recomputed(lib, NamedVersion(mrConfigId), input).value))
  {
    var bare := Bare(mrConfigId);
    Hex.LowerLength(Hex.Strip(mrConfigId));
    if |bare| != 2 * ID_LENGTH { return Ok(false); }
    if bare[..2] == "01" {
      var composeHash := SizedHex(input.composeHash, 32, "compose_hash");
      SizedHexAccepts(input.composeHash, 32, "compose_hash");
      if composeHash.Err? { return Err(composeHash.error); }
      DecodedCompose(input.composeHash);
      var raw := Hex.Decode(composeHash.value).value;
      var expected := Pack(1, raw);
      Hex.DecodeEncode(expected[..]);
      return Ok(EqualFold(Hex.Encode(expected[..]), bare));
    }
    if bare[..2] == "02" {
      var expected := GetMrConfigIdHex(lib, input.composeHash, input.appId, input.keyProvider, input.keyProviderId);
      if expected.Err? { return Err(expected.error); }
      Unprefixed(Recomputed(lib, 2, input).value);
      return Ok(EqualFold(Hex.TrimPrefix(expected.value, "0x"), bare));
    }
    if bare[..2] == "03" {
      var expected := GetMrConfigIdV3Hex(lib, input);
      if expected.Err? { return Err(expected.error); }
      Unprefixed(Recomputed(lib, 3, input).value);
      return Ok(EqualFold(Hex.TrimPrefix(expected.value, "0x"), bare));
    }
    return Ok(false);
  }

  lemma Unprefixed(id: seq<Byte>)
    ensures Hex.TrimPrefix("0x" + Hex.Encode(id), "0x") == Hex.Encode(id)
    ensures Hex.Lower(Hex.Encode(id)) == Hex.Encode(id)
  {
    Hex.DecodeEncode(id);
    assert ("0x" + Hex.Encode(id))[..2] == "0x" && ("0x" + Hex.Encode(id))[2..] == Hex.Encode(id);
  }

  // ----- soundness and completeness across versions

  /** What the method answers, as a predicate. */
  predicate Accepts(lib: Library, h: string, input: Input) {
    NamedVersion(h) != 0 && Recomputed(lib, NamedVersion(h), input).Some? &&
    Bare(h) == Hex.Encode(Recomputed(lib, NamedVersion(h), input).value)
  }

  /** A spelling is accepted exactly when it spells, up to prefix and letter case, one of
      the ids the input has. No version has to be named from outside. */
  lemma AcceptsExactlyTheIds(lib: Library, h: string, input: Input)
    ensures Accepts(lib, h, input) <==>
            exists v: Byte :: 1 <= v <= 3 && Recomputed(lib, v, input).Some? &&
                              Bare(h) == Hex.Encode(Recomputed(lib, v, input).value)
  {
    if v: Byte :| 1 <= v <= 3 && Recomputed(lib, v, input).Some? &&
                  Bare(h) == Hex.Encode(Recomputed(lib, v, input).value)
    {
      VersionIsNamed(lib, v, input, h);
    }
  }

  lemma FirstByte(lib: Library, v: Byte, input: Input)
    requires Recomputed(lib, v, input).Some?
    ensures var id := Recomputed(lib, v, input).value; |id| == ID_LENGTH && id[0] == v && 1 <= v <= 3
  {
  }

  lemma EncodedVersion(id: seq<Byte>)
    requires |id| == ID_LENGTH && 1 <= id[0] <= 3
    ensures VersionOfDigits(Hex.Encode(id)) == id[0]
  {
    Hex.DecodeEncode(id);
    var s := Hex.Encode(id);
    assert s[0] == '0' && s[1] == ['0', '1', '2', '3'][id[0]];
    assert s[..2] == [s[0], s[1]];
  }

  lemma VersionIsNamed(lib: Library, v: Byte, input: Input, h: string)
    requires Recomputed(lib, v, input).Some?
    requires Bare(h) == Hex.Encode(Recomputed(lib, v, input).value)
    ensures NamedVersion(h) == v
  {
    FirstByte(lib, v, input);
    EncodedVersion(Recomputed(lib, v, input).value);
  }

  /** Every id an input has verifies, written bare or prefixed, in any letter case. */
  lemma {:induction false} GeneratedIdsVerify(lib: Library, v: Byte, input: Input, spelling: string)
    requires Recomputed(lib, v, input).Some?
    requires Hex.Decode(spelling) == Recomputed(lib, v, input)
    ensures Accepts(lib, spelling, input) && Accepts(lib, "0x" + spelling, input)
  {
    var id := Recomputed(lib, v, input).value;
    FirstByte(lib, v, input);
    Hex.EncodeDecode(spelling);
    Hex.DecodeEncode(id);
    StripSpelling(spelling);
    VersionIsNamed(lib, v, input, spelling);
    VersionIsNamed(lib, v, input, "0x" + spelling);
  }

  /** Hex digits never look like a prefix. */
  lemma StripSpelling(spelling: string)
    requires Hex.Decode(spelling).Some?
    ensures Hex.Strip(spelling) == spelling == Hex.Strip("0x" + spelling)
  {
    var s := "0x" + spelling;
    assert s[..2] == "0x" && s[2..] == spelling;
    if |spelling| >= 2 {
      assert spelling[1] != 'x' && spelling[1] != 'X';
      assert spelling[..2][1] == spelling[1];
    }
  }

  /** Ids of different versions never coincide, whatever they were computed from. */
  lemma VersionsNeverCollide(lib: Library, v: Byte, w: Byte, a: Input, b: Input)
    requires Recomputed(lib, v, a).Some? && Recomputed(lib, w, b).Some?
    requires Recomputed(lib, v, a) == Recomputed(lib, w, b)
    ensures v == w
  {
    FirstByte(lib, v, a);
    FirstByte(lib, w, b);
  }

  /** Fixed widths make the version 2 concatenation unambiguous. */
  lemma PreImageInjective(c: seq<Byte>, a: seq<Byte>, k: Byte, i: seq<Byte>,
                          c': seq<Byte>, a': seq<Byte>, k': Byte, i': seq<Byte>)
    requires |c| == |c'| == 32 && |a| == |a'| == 20
    requires PreImage(c, a, k, i) == PreImage(c', a', k', i')
    ensures c == c' && a == a' && k == k' && i == i'
  {
    var p, p' := PreImage(c, a, k, i), PreImage(c', a', k', i');
    assert p[..32] == c && p'[..32] == c';
    assert p[32..52] == a && p'[32..52] == a';
    assert p[52] == k && p'[52] == k';
    assert p[53..] == i && p'[53..] == i';
  }

  lemma PackedInjective(v: Byte, d: Digest, d': Digest)
    requires Packed(v, d) == Packed(v, d')
    ensures d == d'
  {
    assert Packed(v, d)[1..33] == d && Packed(v, d')[1..33] == d';
  }

  /** Two version 3 ids can coincide only if SHA-256 collides or the documents are the same. */
  lemma IdV3Binds(lib: Library, d: Document, d': Document)
    requires IdV3(lib, d) == IdV3(lib, d')
    ensures var text, text' := SignedText(lib, d), SignedText(lib, d');
            d == d' || (text != text' && lib.sha(text) == lib.sha(text'))
  {
    var text, text' := SignedText(lib, d), SignedText(lib, d');
    PackedInjective(3, lib.sha(text), lib.sha(text'));
    if text == text' {
      var n := |DOMAIN + "\0"|;
      assert text[n..] == GoCanonical(lib.printable, d) && text'[n..] == GoCanonical(lib.printable, d');
      MrConfigQuoting.GoCanonicalInjective(lib.printable, d, d');
    }
  }

  // ----- where version 2 is stricter

  /** What version 2 leaves of a field still carries a prefix. */
  predicate KeepsPrefix(value: string) {
    StartsWith(Hex.TrimPrefix(value, "0x"), "0X")
  }

  lemma KeptPrefix(value: string)
    ensures if KeepsPrefix(value) then Hex.Decode(Hex.TrimPrefix(value, "0x")).None?
            else Hex.TrimPrefix(value, "0x") == Hex.Strip(value)
  {
    var trimmed := Hex.TrimPrefix(value, "0x");
    if KeepsPrefix(value) {
      assert trimmed[1] == trimmed[..2][1] == 'X';
    }
  }

  lemma SizedField(value: string, size: nat, field: string)
    requires SpellsBytes(value, size)
    ensures DecodeField(value, size, field).Ok? <==> !KeepsPrefix(value)
  {
    KeptPrefix(value);
    Hex.EncodeDecode(Hex.Strip(value));
  }

  /** For an input versions 1 and 3 accept, version 2 has an id exactly when there is an
      application, the key provider is known, and no field carries an upper-case prefix
      behind the lower-case one that is stripped. */
  lemma V2AcceptsExactly(lib: Library, input: Input)
    requires Acceptable(input)
    ensures Recomputed(lib, 1, input).Some? && Recomputed(lib, 3, input).Some?
    ensures Recomputed(lib, 2, input).Some? <==>
            input.appId != "" && KeyProviderByte(input.keyProvider).Some? &&
            !KeepsPrefix(input.composeHash) && !KeepsPrefix(input.appId) && !KeepsPrefix(input.keyProviderId)
  {
    SizedField(input.composeHash, 32, "compose_hash");
    KeptPrefix(input.keyProviderId);
    if input.appId != "" {
      SizedField(input.appId, 20, "app_id");
    }
  }

  /** Version 2 keeps the upper-case prefix that versions 1 and 3 strip, and rejects the field. */
  lemma {:induction false} UpperPrefixRejectedByV2(lib: Library, input: Input, digits: string)
    requires input.composeHash == "0X" + digits
    ensures Recomputed(lib, 2, input) == None
    ensures Hex.Decode(digits).Some? && |digits| == 64 ==> Recomputed(lib, 1, input).Some?
  {
    var s := input.composeHash;
    assert s[..2] == "0X" && s[2..] == digits;
    assert s[1] == 'X';
    assert !StartsWith(s, "0x");
  }
}
