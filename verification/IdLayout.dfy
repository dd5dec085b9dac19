/** The mr_config_id of each version written out byte by byte, from what the caller gives. */
module IdLayout {
  import opened Text
  import opened Decimal
  import Hex
  import opened MrConfig
  import opened MrConfigId

  /** Fifteen zero bytes. */
  const ZEROS: seq<Byte> := [0, 0, 0, 0, 0, 0, 0, 0, 0, 0, 0, 0, 0, 0, 0]

  lemma PackedLayout(version: Byte, digest: Digest)
    ensures Packed(version, digest) == [version] + digest + ZEROS
  {
    assert seq(PADDING, _ => 0 as Byte) == ZEROS;
  }

  /** Version 1: the compose hash itself. */
  lemma V1Layout(lib: Library, input: Input, c: Digest)
    requires Hex.Decode(Hex.Strip(input.composeHash)) == Some(c)
    ensures Recomputed(lib, 1, input) == Some([1] + c + ZEROS)
  {
    Hex.EncodeDecode(Hex.Strip(input.composeHash));
    PackedLayout(1, c);
  }

  /** Version 2: Keccak-256 of the four fields, whichever way their bytes are spelled; the
      providers are numbered none, local, kms, tpm, and no other has an id. */
  lemma V2Layout(lib: Library, composeHash: string, appId: string, kind: string, providerId: string,
                 c: seq<Byte>, a: seq<Byte>, i: seq<Byte>)
    requires Hex.Decode(Hex.TrimPrefix(composeHash, "0x")) == Some(c) && |c| == 32
    requires Hex.Decode(Hex.TrimPrefix(appId, "0x")) == Some(a) && |a| == 20
    requires Hex.Decode(Hex.TrimPrefix(providerId, "0x")) == Some(i)
    ensures var id := IdV2(lib, composeHash, appId, kind, providerId);
            && (kind == "none" ==> id == Ok([2] + lib.keccak(c + a + [0] + i) + ZEROS))
            && (kind == "local" ==> id == Ok([2] + lib.keccak(c + a + [1] + i) + ZEROS))
            && (kind == "kms" ==> id == Ok([2] + lib.keccak(c + a + [2] + i) + ZEROS))
            && (kind == "tpm" ==> id == Ok([2] + lib.keccak(c + a + [3] + i) + ZEROS))
            && (kind !in {"none", "local", "kms", "tpm"} ==> id == Err(UnknownKeyProvider))
  {
    match KeyProviderByte(kind)
    case Some(b) => PackedLayout(2, lib.keccak(PreImage(c, a, b, i)));
    case None =>
  }

  /** The bare spellings of the bytes are such spellings. */
  lemma V2OfBytes(lib: Library, c: seq<Byte>, a: seq<Byte>, kind: string, i: seq<Byte>)
    requires |c| == 32 && |a| == 20
    ensures var id := IdV2(lib, Hex.Encode(c), Hex.Encode(a), kind, Hex.Encode(i));
            id == IdV2(lib, "0x" + Hex.Encode(c), "0x" + Hex.Encode(a), kind, "0x" + Hex.Encode(i)) &&
            (kind == "kms" ==> id == Ok([2] + lib.keccak(c + a + [2] + i) + ZEROS))
  {
    BareSpelling(c);
    BareSpelling(a);
    BareSpelling(i);
    V2Layout(lib, Hex.Encode(c), Hex.Encode(a), kind, Hex.Encode(i), c, a, i);
  }

  lemma BareSpelling(bytes: seq<Byte>)
    ensures Hex.TrimPrefix(Hex.Encode(bytes), "0x") == Hex.Encode(bytes)
    ensures Hex.TrimPrefix("0x" + Hex.Encode(bytes), "0x") == Hex.Encode(bytes)
    ensures Hex.Decode(Hex.Encode(bytes)) == Some(bytes)
  {
    var s := Hex.Encode(bytes);
    Hex.DecodeEncode(bytes);
    assert ("0x" + s)[..2] == "0x" && ("0x" + s)[2..] == s;
    assert |s| >= 2 ==> s[1] != 'x' && s[..2][1] == s[1];
  }

  /** The first field that is no hex, or of the wrong size, is the error, in the order compose
      hash, application, provider id, provider. */
  lemma V2Errors(lib: Library, composeHash: string, appId: string, kind: string, providerId: string)
    ensures var id := IdV2(lib, composeHash, appId, kind, providerId);
            var c := Hex.Decode(Hex.TrimPrefix(composeHash, "0x"));
            var a := Hex.Decode(Hex.TrimPrefix(appId, "0x"));
            var composeFits, appFits := c.Some? && |c.value| == 32, a.Some? && |a.value| == 20;
            var providerReads := Hex.Decode(Hex.TrimPrefix(providerId, "0x")).Some?;
            && (id == Err(NotHex("compose_hash")) <==> c == None)
            && (id == Err(BadLength("compose_hash")) <==> c.Some? && !composeFits)
            && (id == Err(NotHex("app_id")) <==> composeFits && a == None)
            && (id == Err(BadLength("app_id")) <==> composeFits && a.Some? && !appFits)
            && (id == Err(NotHex("key_provider_id")) <==> composeFits && appFits && !providerReads)
            && (id == Err(UnknownKeyProvider) <==>
                composeFits && appFits && providerReads && kind !in {"none", "local", "kms", "tpm"})
  {
    FieldNames();
  }

  lemma FieldNames()
    ensures "compose_hash" != "app_id" && "app_id" != "key_provider_id" && "key_provider_id" != "compose_hash"
  {
    assert "compose_hash"[0] == 'c' && "app_id"[0] == 'a' && "key_provider_id"[0] == 'k';
  }

  /** Version 3: SHA-256 of the domain, a zero byte and Go's text of the document. */
  lemma V3Layout(lib: Library, input: Input)
    requires Acceptable(input)
    ensures Recomputed(lib, 3, input) ==
            Some([3] + lib.sha("dstack-mr-config-v3:" + "\0" + GoCanonical(lib.printable, DocumentOf(input))) + ZEROS)
  {
    PackedLayout(3, lib.sha(SignedText(lib, DocumentOf(input))));
  }

  /** Only these three versions have ids. */
  lemma OtherVersions(lib: Library, v: Byte, input: Input)
    requires v !in {1, 2, 3}
    ensures Recomputed(lib, v, input) == None
  {
  }

  // ----- the document of an input

  /** The lower-case digits of the bytes a value spells. */
  function Digits(value: string): string {
    match Hex.Decode(Hex.Strip(value))
    case Some(bytes) => Hex.Encode(bytes)
    case None => ""
  }

  lemma BareDigits(value: string)
    requires value == "" || Hex.Decode(Hex.Strip(value)).Some?
    ensures Bare(value) == Digits(value)
  {
    Hex.EncodeDecode(Hex.Strip(value));
  }

  /** The document of an acceptable input: version 3, every hex field as the lower-case digits
      of its bytes, the key provider as given, the scripts absent or present as given. */
  lemma DocumentFields(input: Input)
    requires Acceptable(input)
    ensures var d := DocumentOf(input);
            && d.version == 3 && d.keyProvider == input.keyProvider
            && d.appId == Digits(input.appId) && d.composeHash == Digits(input.composeHash)
            && d.gpuPolicyHash == Digits(input.gpuPolicyHash) && d.keyProviderId == Digits(input.keyProviderId)
            && d.instanceId == Digits(input.instanceId)
            && (d.initScriptHashes.Some? <==> input.initScriptHashes.Some?)
            && (d.initScriptHashes.Some? ==>
                  |d.initScriptHashes.value| == |input.initScriptHashes.value| &&
                  forall i :: 0 <= i < |d.initScriptHashes.value| ==>
                    d.initScriptHashes.value[i] == Digits(input.initScriptHashes.value[i]))
  {
    BareDigits(input.appId);
    BareDigits(input.composeHash);
    BareDigits(input.gpuPolicyHash);
    BareDigits(input.keyProviderId);
    BareDigits(input.instanceId);
    if input.initScriptHashes.Some? {
      forall i | 0 <= i < |input.initScriptHashes.value|
        ensures Bare(input.initScriptHashes.value[i]) == Digits(input.initScriptHashes.value[i])
      {
        BareDigits(input.initScriptHashes.value[i]);
      }
    }
  }

  /** What is accepted: hex of 32 bytes for the compose hash, the same or nothing for the policy,
      20 bytes or nothing for application and instance, any hex for the provider id, and at most
      five script hashes of 32 bytes. */
  lemma AcceptableByBytes(input: Input)
    ensures Acceptable(input) <==>
            && Size(input.composeHash) == Some(32)
            && (input.appId == "" || Size(input.appId) == Some(20))
            && (input.gpuPolicyHash == "" || Size(input.gpuPolicyHash) == Some(32))
            && (input.keyProviderId == "" || Size(input.keyProviderId).Some?)
            && (input.instanceId == "" || Size(input.instanceId) == Some(20))
            && (input.initScriptHashes.Some? ==>
                  |input.initScriptHashes.value| <= 5 &&
                  forall i :: 0 <= i < |input.initScriptHashes.value| ==>
                    Size(input.initScriptHashes.value[i]) == Some(32))
  {
    SizeSpelled(input.composeHash, 32);
    SizeSpelled(input.appId, 20);
    SizeSpelled(input.gpuPolicyHash, 32);
    SizeSpelled(input.instanceId, 20);
    if input.initScriptHashes.Some? {
      forall i | 0 <= i < |input.initScriptHashes.value|
        ensures SpellsBytes(input.initScriptHashes.value[i], 32) <==> Size(input.initScriptHashes.value[i]) == Some(32)
      {
        SizeSpelled(input.initScriptHashes.value[i], 32);
      }
    }
  }

  /** The number of bytes a value spells, prefixes aside. */
  function Size(value: string): Option<nat> {
    match Hex.Decode(Hex.Strip(value))
    case Some(bytes) => Some(|bytes|)
    case None => None
  }

  lemma SizeSpelled(value: string, size: nat)
    ensures SpellsBytes(value, size) <==> Size(value) == Some(size)
  {
    if Hex.Decode(Hex.Strip(value)).Some? {
      Hex.EncodeDecode(Hex.Strip(value));
    }
  }

  // ----- which error

  /** What is wrong with a field of a given size. */
  function Fault(value: string, size: nat, field: string): Option<Error> {
    match Size(value)
    case None => Some(NotHex(field))
    case Some(n) => if n == size then None else Some(BadLength(field))
  }

  function OptionalFault(value: string, size: nat, field: string): Option<Error> {
    if value == "" then None else Fault(value, size, field)
  }

  /** The faults of an input, in the order in which the fields are looked at. */
  function Faults(input: Input): seq<Option<Error>> {
    [Fault(input.composeHash, 32, "compose_hash"),
     OptionalFault(input.appId, 20, "app_id"),
     OptionalFault(input.gpuPolicyHash, 32, "gpu_policy_hash"),
     if input.keyProviderId != "" && Size(input.keyProviderId) == None then Some(NotHex("key_provider_id")) else None,
     OptionalFault(input.instanceId, 20, "instance_id")] +
    match input.initScriptHashes
    case None => []
    case Some(hashes) => ScriptFaults(hashes)
  }

  function ScriptFaults(hashes: seq<string>): seq<Option<Error>> {
    if |hashes| > 5 then [Some(TooManyScripts)]
    else
      seq(|hashes|, i requires 0 <= i < |hashes| =>
        Fault(hashes[i], 32, "init_script_hashes[" + Numeral(i) + "]"))
  }

  predicate IsFirst<T(==)>(options: seq<Option<T>>, found: Option<T>) {
    match found
    case None => forall i :: 0 <= i < |options| ==> options[i] == None
    case Some(_) =>
      exists k :: 0 <= k < |options| && options[k] == found && forall i :: 0 <= i < k ==> options[i] == None
  }

  lemma {:induction false} FirstIsFirst<T>(options: seq<Option<T>>)
    ensures IsFirst(options, FirstSome(options))
  {
    if options != [] {
      var rest := options[1..];
      FirstIsFirst(rest);
      if options[0] == None && FirstSome(rest).Some? {
        var k :| 0 <= k < |rest| && rest[k] == FirstSome(rest) && forall i :: 0 <= i < k ==> rest[i] == None;
        assert options[k + 1] == FirstSome(options);
        forall i | 0 <= i < k + 1 ensures options[i] == None {
          assert i > 0 ==> options[i] == rest[i - 1];
        }
      }
    }
  }

  lemma FaultIs(value: string, size: nat, field: string)
    ensures ErrorOf(SizedHex(value, size, field)) == Fault(value, size, field)
    ensures ErrorOf(OptionalHex(value, size, field)) == OptionalFault(value, size, field)
    ensures ErrorOf(NormalizeHex(value, field)) == if Size(value) == None then Some(NotHex(field)) else None
  {
    var bare := Hex.Strip(value);
    Hex.DecodeLower(bare);
    Hex.LowerLength(bare);
    if Hex.Decode(bare).Some? {
      Hex.EncodeDecode(bare);
    }
  }

  lemma EitherIsFirst(first: Option<Error>, rest: seq<Option<Error>>)
    ensures FirstSome([first] + rest) == Either(first, FirstSome(rest))
  {
    assert ([first] + rest)[1..] == rest;
  }

  lemma ThreeThen(c: Option<Error>, d: Option<Error>, e: Option<Error>, rest: seq<Option<Error>>)
    ensures FirstSome([c, d, e] + rest) == Either(c, Either(d, Either(e, FirstSome(rest))))
  {
    EitherIsFirst(e, rest);
    EitherIsFirst(d, [e] + rest);
    EitherIsFirst(c, [d] + ([e] + rest));
    assert [c, d, e] + rest == [c] + ([d] + ([e] + rest));
  }

  lemma FiveThen(a: Option<Error>, b: Option<Error>, c: Option<Error>, d: Option<Error>, e: Option<Error>,
                 rest: seq<Option<Error>>)
    ensures FirstSome([a, b, c, d, e] + rest) == Either(a, Either(b, Either(c, Either(d, Either(e, FirstSome(rest))))))
  {
    var three := [c, d, e] + rest;
    ThreeThen(c, d, e, rest);
    EitherIsFirst(b, three);
    EitherIsFirst(a, [b] + three);
    assert [a, b, c, d, e] + rest == [a] + ([b] + three);
  }

  lemma ScriptsError(hashes: seq<string>)
    ensures HashesError(hashes) == FirstSome(ScriptFaults(hashes))
  {
    if |hashes| <= 5 {
      forall i | 0 <= i < |hashes| ensures HashErrors(hashes)[i] == ScriptFaults(hashes)[i] {
        FaultIs(hashes[i], 32, HashField(i));
      }
      assert HashErrors(hashes) == ScriptFaults(hashes);
    }
  }

  /** The builder fails with the first fault of the input, and not without one. */
  lemma BuildErrors(input: Input)
    ensures IsFirst(Faults(input), BuildError(input))
  {
    var f := Faults(input);
    var scripts := if input.initScriptHashes.Some? then ScriptFaults(input.initScriptHashes.value) else [];
    FaultIs(input.composeHash, 32, "compose_hash");
    FaultIs(input.appId, 20, "app_id");
    FaultIs(input.gpuPolicyHash, 32, "gpu_policy_hash");
    FaultIs(input.keyProviderId, 0, "key_provider_id");
    FaultIs(input.instanceId, 20, "instance_id");
    if input.initScriptHashes.Some? {
      ScriptsError(input.initScriptHashes.value);
    }
    FiveThen(f[0], f[1], f[2], f[3], f[4], scripts);
    assert f == [f[0], f[1], f[2], f[3], f[4]] + scripts;
    FirstIsFirst(f);
  }

  /** What verification fails with, by the version that the id names: for version 1 the compose
      hash alone matters, for the others it is the error of recomputing the id. */
  lemma VerifyErrors(lib: Library, input: Input, version: Byte)
    ensures VerifyError(lib, 1, input) == Fault(input.composeHash, 32, "compose_hash")
    ensures var id := IdV2(lib, input.composeHash, input.appId, input.keyProvider, input.keyProviderId);
            VerifyError(lib, 2, input) == match id case Ok(_) => None case Err(e) => Some(e)
    ensures IsFirst(Faults(input), VerifyError(lib, 3, input))
    ensures version !in {1, 2, 3} ==> VerifyError(lib, version, input) == None
  {
    FaultIs(input.composeHash, 32, "compose_hash");
    BuildErrors(input);
  }
}
