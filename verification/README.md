# A verified model of the Phala Cloud SDK and CLI algorithms

The SDKs and the command line tool wrap an HTTP API, but around it stand algorithms on which
measured configurations, logs and releases depend. This project models those algorithms in Dafny
and proves what their documentation and callers rely on. Code that loops or updates state is a
method or a class with its specification as a function; the theorems are lemmas about those
functions. `dafny verify dfyconfig.toml` checks everything.

| Module | Models |
|---|---|
| `Json`, `JsonForms`, `LineSeparators`, `KeyOrder`, `OrderMeaning`, `Canonical` | JSON printing and parsing, the rewriting of U+2028/U+2029 escapes, key orders of Go and JavaScript, and the canonical text that Go hashes |
| `JsCanonical`, `CrossClient` | JavaScript's `sortObject` on objects with their key order, and when both clients write one text |
| `OsImage`, `Compose`, `ComposeWire`, `JsCompose`, `JsComposeOrder` | OS image versions and the normalisation of compose documents, in Go on maps and in JavaScript on ordered objects, and what it writes field by field |
| `Hex`, `Quoting`, `MrConfig`, `MrConfigQuoting`, `MrConfigId`, `IdLayout`, `JsMrConfig` | the MrConfigV3 document, the 48-byte mr_config_id in three versions, its verification, and the JavaScript counterparts |
| `Logs`, `Watch`, `WatchFrames` | the batch and streaming log decoders; the server-sent event reader with its reconnect loop |
| `Wrap`, `WrapLines` | greedy word wrapping, chunks, and wrapping of whole texts |
| `Registry`, `RegistryContents`, `Hoist`, `HoistForms` | the command trie with aliases; moving leading global options behind the command words |
| `Tracker`, `Timeline`, `Retry` | the transaction tracker as a step machine, and what it shows at each stage; retry loops, backoff and batches |
| `Dotenv`, `DotenvValues`, `Shell`, `DocsOutput`, `Hostname` | the dotenv scanner, shell quoting, the reader of wrapped tool output, host names |
| `Versions`, `VersionTexts` | both version-bump scripts |
| `Text`, `Decimal` | strings, options, numerals |

## Conventions

- Hash functions (SHA-256, Keccak-256), JSON decoding of one log line or event, base64 decoding,
  trimming in the event reader, lower-casing in the host name pipeline, Go's table of printable
  characters, and "does this version exist" are parameters. Nothing is assumed of them except where a lemma states it, so every result
  about hashes holds at the level of what is hashed.
- A mutable Go map, the command registry and the tracker's closure are classes. The registry keeps
  a ghost trie beside its nodes, and its invariant ties the two together.
- Concurrency is modelled by steps and inputs: chunks and lines are sequences, a connection attempt
  is a value that says what the connection yields and where cancellation strikes, and the tracker's
  asynchronous function is cut at its awaits. A source loop that may not end is a step function
  whose number of turns is unbounded.
- A character is a Unicode scalar value. JSON is read and written as compact text, without white
  space between tokens, and a number is an opaque token.

- The modules that end in another word (`HoistForms`, `ComposeWire`, `IdLayout`, `Timeline`,
  `DotenvValues`, `WatchFrames`, `RegistryContents`, `VersionTexts`, `JsonForms`, `OrderMeaning`) say
  on spelled-out inputs what comes out, without the functions that specify the methods, so each
  branch of those functions is tied to what the source does.

## What the proofs showed

Where a documented property is not quite true, the project proves the exact condition under which
it holds, and gives a concrete input on which it fails.

- Normalising a compose document for an OS image twice changes it, or fails, when the image is below
  0.6.0 and `init_script` is a one-element list whose element is, in Go, anything but a non-empty
  string, and in JavaScript a list or a falsy value (`Compose.ForOsImageIdempotent`,
  `Compose.IdempotenceFails`, `Compose.JsForOsImageIdempotent`, `Compose.SecondPassDiffers`).
- JavaScript's `sortObject` returns an object with an own field `constructor` as it stands. The two
  SDKs write one text for a document exactly when such objects have their keys in code point order
  at every level, and all others have no `__proto__` field and keys that code point order and
  JavaScript's enumeration list alike; array-index keys are enumerated first
  (`CrossClient.ClientsDumpAlike`, `CrossClient.IndexKeysDisagree`,
  `CrossClient.ConstructorDisagrees`).
- The Go text of a document determines it. In JavaScript `__proto__` fields are not hashed, except at
  and below an object with a `constructor` (`JsCanonical.JsDumpExactly`,
  `JsCanonical.ProtoIsNotHashed`, `JsCanonical.ConstructorShowsProto`). Insertion order shows in the
  text exactly when some shown object with a `constructor` has, at some level, two keys that are no
  array indices (`JsCanonical.OrderShowsExactly`, `JsCanonical.ConstructorKeepsOrder`).
- So `getComposeHash` of the two SDKs hash one text exactly when the normal forms are one map and the
  resulting object is alike for both (`JsCompose.TextsAgree`); for plain keys the first condition
  decides (`JsCompose.PlainTextsAgree`).
- JavaScript drops `false` and `0` where Go drops only null and the empty string, Go's version
  scanner stops at a number that overflows, and Go rejects an `init_script` that is neither string
  nor list (`Compose.ClientsNormalizeAlike`, `Compose.ClientsDiffer`, `OsImage.ScannersAgree`,
  `OsImage.OverflowDiffers`).
- Streaming and batch log decoding differ on unstructured lines that end in CR LF, because only the
  batch decoder drops the carriage return (`Logs.StreamIsBatch`, `Logs.StreamDiffersFromBatch`); a
  blank first chunk makes a structured body raw (`Logs.ModeMatchesBody`, `Logs.BlankFirstChunk`).
- For an input that versions 1 and 3 accept, version 2 fails exactly when the application id is
  empty, the key provider is unknown, or one of its three hex fields has a `0X` prefix, which the
  other versions strip (`MrConfigId.V2AcceptsExactly`, `MrConfigId.UpperPrefixRejectedByV2`). Go
  accepts doubled prefixes, JavaScript accepts optional fields that are only a prefix
  (`JsMrConfig.BuildersAgree`, `JsMrConfig.BuildersDiffer`).
- Go quotes the strings of a MrConfigV3 document with %q, which the comments take for JSON quoting. The
  text is the canonical one exactly when the key provider, which no builder validates, has only
  printable characters and the controls that JSON writes with a letter
  (`MrConfigQuoting.BuiltTextIsCanonical`, `MrConfigQuoting.ControlDiffers`).
- Hoisting leading global options is invisible to a command exactly when none of its own options
  gives a global name another kind (`Hoist.CommandNoticesExactly`). `phala ssh` redefines `-v` as a
  flag again and never notices (`Hoist.SshNeverNotices`); `phala cvms resize` gives `-v` a value, so
  `-v cvms resize` is read differently once hoisted (`Hoist.ResizeNotices`).
- Aborting a transaction from its own `onSubmitted` callback is lost: the run returns and the
  tracker says success and aborted at once (`Tracker.ListeningExactly`,
  `Tracker.AbortInCallbackIsLost`). The same callback effect in `onConfirmed` is the one case in
  which the final state does not match the outcome (`Tracker.SettledStateExactly`,
  `Tracker.AbortOnConfirmedMisleads`).
- A sequential batch has one entry for each operation exactly when the progress callback returns
  for every operation that runs: a callback that throws on a success is reported by the same catch
  clause as a second entry (`Retry.OneEntryEachExactly`, `Retry.CallbackDoublesEntry`).
- In dotenv files an inline comment is kept when the quoted value ends in a backslash
  (`Dotenv.InlineComment`), and in a CR LF file the entries without an inline comment keep the quotes
  of their values (`Dotenv.CarriageReturnMatters`). The comments in the source speak of a backslash and an n
  becoming a newline; the code requires two backslashes, and the model follows the code.
- The Python release script translates a version to PEP 440 a second time inside its existence
  check, which raises for every pre-release (`Versions.TranslatingTwice`). Its patterns accept one
  final newline (`Versions.PrintParse`, `Versions.PepRoundTrip`).
- A generated fallback host name is invalid when its random part is empty
  (`Hostname.FallbackValidity`); a default name from a long valid prefix is invalid when the cut
  falls right after a hyphen (`Hostname.DefaultNameValidity`).
- JavaScript's iterated backoff equals the capped power at every retry exactly when the factor is at
  least one or the delay after the initial one is not capped (`Retry.ClosedFormExactly`,
  `Retry.ShrinkingFactorDiffers`).
- The chunk splitter of the logger returns exactly for a positive size or the empty text, and
  wrapping a text returns exactly when the width is positive or every line is empty or has a space
  (`WrapLines.ChunksReturn`, `WrapLines.WrapReturnsExactly`). The key-value table reaches a width
  of zero: a short key beside a long value shrinks to nothing (`WrapLines.KeyColumnReturns`,
  `WrapLines.ShortKeyNeverReturns`).

## Model

| member | source | states |
|---|---|---|
| `Json.ParseInvertsPrint` | go/compose_hash.go:224-236 | an explicit parser of compact JSON with opaque number tokens undoes the printer, with either escaper, for every document |
| `Json.PrintInjective` | go/compose_hash.go:224-236 | equal texts come from equal documents |
| `JsonForms.QuotedForm` | go/compose_hash.go:224-236 | a literal is its characters between quotes, each as itself, by its letter or by four lower-case hex digits, with the table of letters written out |
| `JsonForms.ItemsJoined` | go/compose_hash.go:224-236 | an array is its printed items between brackets, joined by commas without spaces |
| `JsonForms.MembersJoined` | go/compose_hash.go:224-236 | an object is its quoted names and printed values with a colon between them, between braces, joined by commas |
| `LineSeparators.UnescapeLineSeparators` | go/compose_hash.go:248-270 | the index-and-builder loop computes the rewriting function |
| `LineSeparators.UnescapeIsExact` | go/compose_hash.go:238-270 | for every string, rewriting the text escaped with U+2028/U+2029 gives exactly the text escaped without; an escaped backslash before "u2028" is left alone |
| `LineSeparators.UnescapeDocument` | go/compose_hash.go:228-236 | rewriting a whole printed document gives the document printed with raw separators |
| `LineSeparators.UnescapeIdempotent` | go/compose_hash.go:248-270 | rewriting twice is rewriting once, for arbitrary texts |
| `LineSeparators.StringMeaning` | go/compose_hash.go:245-270 | for every literal that section 7 of RFC 8259 decodes to characters, rewriting keeps what it decodes to, and rewrites what follows it |
| `LineSeparators.DocumentMeaning` | go/compose_hash.go:228-236 | for every compact text the parser accepts, printed by this program or not, the rewritten text parses to the same document |
| `KeyOrder.SortedUnique` | js/src/utils/get_compose_hash.ts:24-31 | a set of keys has one ascending sequence under a key order, so insertion order does not matter |
| `KeyOrder.OwnKeysOfSorted` | js/src/utils/get_compose_hash.ts:24-31 | assigning sorted keys into a fresh object and enumerating it puts array indices first, then the rest by UTF-16 units |
| `KeyOrder.SortedAgree` | js/src/utils/get_compose_hash.ts:24-31 | two orders sort a key set alike exactly when they agree on its pairs |
| `KeyOrder.PlainKeysSameOrder` | js/src/utils/get_compose_hash.ts:168-175 | on ASCII keys that are no array indices byte order and JavaScript's order coincide |
| `OrderMeaning.OrderByUnits` | js/src/utils/get_compose_hash.ts:24-31 | for all strings, the one key order is the order of their UTF-8 bytes (RFC 3629) and the other the order of their UTF-16 units (RFC 2781) |
| `OrderMeaning.ArrayIndexExactly` | js/src/utils/get_compose_hash.ts:24-31 | the array indices are exactly the numerals of the numbers up to 2^32 - 2 |
| `OrderMeaning.IndicesByNumber` | js/src/utils/get_compose_hash.ts:24-31 | they are enumerated by number and before all other keys, which stand in UTF-16 order |
| `Canonical.MembersOfDict` | go/compose_hash.go:224-228 | the object Go prints has every field of the map exactly once, with its value, and nothing else |
| `Canonical.ReadInvertsDump` | go/compose_hash.go:228-236 | a reader recovers the nested map value from its Go text |
| `Canonical.DumpIsCanonical` | go/compose_hash.go:61-66 | two values have the same Go text if and only if they are equal |
| `JsCanonical.ReadInvertsJsDump` | js/src/utils/get_compose_hash.ts:173-175 | reading the JavaScript text of any object back gives its nested map, without `__proto__` fields except at and below an object with a `constructor` field |
| `JsCanonical.JsDumpExactly` | js/src/utils/get_compose_hash.ts:18-34 | for all objects with their key order, two texts are equal if and only if the objects are identical wherever a `constructor` field stands and equal in all other fields than `__proto__` elsewhere |
| `JsCanonical.ProtoIsNotHashed` | js/src/utils/get_compose_hash.ts:24-31 | a concrete pair of different documents with one JavaScript text and two Go texts |
| `JsCanonical.ConstructorShowsProto` | js/src/utils/get_compose_hash.ts:23 | beside a `constructor` field the same `__proto__` field changes the text |
| `JsCanonical.OrderShowsExactly` | js/src/utils/get_compose_hash.ts:18-34 | all insertion orders of a value give one text if and only if every shown object with a `constructor` field has, at every level below, at most one key that is no array index |
| `JsCanonical.OrderFreeTexts` | js/src/utils/get_compose_hash.ts:173-175 | for such values, whatever the insertion order, equal texts mean equal shown values and conversely |
| `JsCanonical.ConstructorKeepsOrder` | js/src/utils/get_compose_hash.ts:23 | one concrete map inserted in two orders gives two texts when a field is named `constructor` |
| `CrossClient.ClientsDumpAlike` | js/src/utils/get_compose_hash.ts:168-175 | for every object with its key order, Go and JavaScript write one text if and only if objects with a `constructor` field stand in code point order throughout, and all others have no `__proto__` field and keys that both orders list alike |
| `CrossClient.PlainKeysDumpAlike` | js/src/utils/get_compose_hash.ts:168-175 | objects whose keys are ASCII, no array indices and neither `__proto__` nor `constructor` have one text in both clients, in any insertion order |
| `CrossClient.IndexKeysDisagree` | js/src/utils/get_compose_hash.ts:18-34 | a concrete document with keys "10" and "9" on which the clients differ |
| `CrossClient.ConstructorDisagrees` | js/src/utils/get_compose_hash.ts:23 | a concrete document with a `constructor` behind another key on which they differ |
| `OsImage.ScanParts` | go/compose_hash.go:144-159 | the scanning loop of both clients, with its breaks, computes the parts |
| `OsImage.Below060` | go/compose_hash.go:144-164 | the comparison with 0.6.0 on the padded parts |
| `OsImage.ScansTwoNumbers` | go/compose_hash.go:141-143 | a version starting with two numbers is judged by them whatever suffix follows |
| `OsImage.JudgedByTwoNumbers` | go/compose_hash.go:144-164 | every version is judged by its first two numbers: below 0.6.0 exactly when they are 0 and less than 6, in Go with what an overflow changes |
| `OsImage.UnparseableIsBelow` | go/compose_hash.go:141-143 | anything that does not start with a digit counts as 0.0.0 |
| `OsImage.ScannersAgree` | js/src/utils/get_compose_hash.ts:99-114 | the two scanners agree on every string exactly when no number that matters overflows Go's int |
| `OsImage.OverflowDiffers` | js/src/utils/get_compose_hash.ts:99-114 | a concrete version on which they differ |
| `Compose.ComposeMap.NormalizeComposeMap` | go/compose_hash.go:198-222 | deleting and setting keys of the map in place yields the normalisation of its old content |
| `Compose.ComposeMap.DropNilFields` | go/compose_hash.go:212-216 | the loop over the nullable fields |
| `Compose.ComposeMap.DropEmptyFields` | go/compose_hash.go:217-221 | the loop over the fields dropped when null or empty |
| `Compose.NormalizedComposeCopy` | go/compose_hash.go:189-196 | the copy is fresh and normalised and the caller's map is untouched |
| `Compose.NormalizedComposeForOSImage` | go/compose_hash.go:92-113 | the result on a fresh map or the error, with the caller's map untouched |
| `ComposeWire.GoWireFields` | go/compose_hash.go:92-138 | for every map and version, from the given script alone: when it fails and with which error; `manifest_version` is the number 2 below 0.6.0 and the string "3" from there; `init_script` is dropped, bare or a list accordingly |
| `ComposeWire.JsWireFields` | js/src/utils/get_compose_hash.ts:149-165 | the same for JavaScript, where a falsy script counts as none and any other value as one |
| `ComposeWire.OtherFields` | go/compose_hash.go:189-222 | every other field, with or without an OS image and in both clients, is left out, kept as given, or the defaulted `tproxy_enabled` |
| `ComposeWire.OmittedByName` | go/compose_hash.go:48-56 | the fields that are left out and when, by name |
| `ComposeWire.GivenFields` | go/compose_hash.go:48-59 | without an OS image the two fields stay as given |
| `Compose.NormalizedAt` | go/compose_hash.go:48-56 | field by field: which are omitted, all others unchanged, tproxy_enabled defaulting to gateway_enabled and then true |
| `Compose.NormalizedIdempotent` | go/compose_hash.go:198-222 | normalising twice is normalising once, in either client |
| `Compose.NormalizedTextIsCanonical` | go/compose_hash.go:61-66 | normalised documents have equal Go texts if and only if they are equal maps |
| `Compose.ForOsImageIdempotent` | go/compose_hash.go:92-113 | in Go, OS-dependent normalisation is idempotent, for all documents and versions, except exactly when a one-element list holds no non-empty string below 0.6.0 |
| `Compose.JsForOsImageIdempotent` | js/src/utils/get_compose_hash.ts:128-166 | in JavaScript, except exactly when it holds a list or a falsy value |
| `Compose.SecondPassDiffers` | js/src/utils/get_compose_hash.ts:150-158 | a concrete document whose second normalisation fails in Go and changes nothing in JavaScript |
| `Compose.IdempotenceFails` | go/compose_hash.go:92-113 | a concrete document for 0.5.0 on which it is not |
| `Compose.NormalizedAgree` | js/src/utils/get_compose_hash.ts:128-147 | the clients normalise alike if and only if no field that may be dropped is false or zero |
| `Compose.ClientsNormalizeAlike` | js/src/utils/get_compose_hash.ts:128-166 | the clients produce the same wire document or both fail, with the exact condition for it |
| `Compose.ClientsDiffer` | js/src/utils/get_compose_hash.ts:128-147 | a concrete document that they normalise differently for every version |
| `JsCompose.PreprocessAppCompose` | js/src/utils/get_compose_hash.ts:128-166 | the deletions and assignments on a copy of the object, key order included, compute the preprocessed object or the error |
| `JsCompose.PreprocessedMap` | js/src/utils/get_compose_hash.ts:128-166 | the object always stands for the normalised map, stays in enumeration order, and fails when the map model does |
| `JsComposeOrder.PreprocessedOrder` | js/src/utils/get_compose_hash.ts:128-166 | the hashed object has the given keys that are not dropped, in their order, and behind them the new ones in the order they are assigned |
| `JsCompose.JsTextsExactly` | js/src/utils/get_compose_hash.ts:184-188 | two documents are hashed as one text if and only if their normal forms stand alike, and, if those are order-free, if and only if they show one value |
| `JsCompose.TextsAgree` | js/src/utils/get_compose_hash.ts:177-188 | for every document and OS image, JavaScript hashes the text the Go client hashes, or fails like it, if and only if the normal forms are one map and the object JavaScript ends up with is alike for both |
| `JsCompose.PlainTextsAgree` | js/src/utils/get_compose_hash.ts:177-188 | for documents with plain keys in any insertion order, if and only if the conditions of `Compose.ClientsNormalizeAlike` hold |
| `Hex.DecodeEncode` | go/dstack_helpers.go:131-145 | decoding undoes encoding, and encoded text is lower case of twice the length |
| `Hex.EncodeDecode` | go/dstack_helpers.go:223-229 | a spelling is determined by its bytes up to letter case |
| `JsonForms.HexSpelling` | go/dstack_helpers.go:131-145 | two lower-case digits for each byte, the high one first |
| `MrConfig.BuildHashes` | go/dstack_helpers.go:298-313 | the loop accepts at most five 32-byte spellings and normalises each in order, or returns the first error |
| `MrConfig.BuildMrConfigV3Document` | go/dstack_helpers.go:245-318 | step-by-step assignment succeeds if and only if every field spells bytes of its size, and gives the one document those inputs stand for; a failure is the error of the first bad field |
| `MrConfig.CanonicalizeMrConfigV3Document` | go/dstack_helpers.go:330-360 | appending members in the fixed order, quoted by %q, gives the text of the document's member list |
| `IdLayout.DocumentFields` | go/dstack_helpers.go:245-318 | the document of acceptable inputs is version 3 with every hex field in the lower-case digits of its bytes, the key provider as given and the scripts as given, absent or present |
| `IdLayout.AcceptableByBytes` | go/dstack_helpers.go:245-318 | which inputs are acceptable, by the bytes that each field spells |
| `IdLayout.BuildErrors` | go/dstack_helpers.go:245-318 | the builder fails with the first fault, in the order of the fields, each with its name, and not without one |
| `Quoting.QuotesAlike` | go/dstack_helpers.go:331-334 | %q and JSON quote a string alike if and only if every character is printable or one of the five controls with a letter of their own in JSON |
| `JsonForms.GoQuotedForm` | go/dstack_helpers.go:331-334 | %q writes every character between the quotes as itself, by one of seven letters, or as two, four or eight hex digits, with the cases written out |
| `JsonForms.HexNumeral` | go/dstack_helpers.go:331-334 | those digits denote the code point and are lower case |
| `MrConfigQuoting.GoWritesCanonical` | go/dstack_helpers.go:320-360 | for every document, Go writes the canonical JSON text if and only if %q and JSON quote all its strings alike |
| `MrConfigQuoting.BuiltTextIsCanonical` | go/dstack_helpers.go:320-360 | for every input the builder accepts, Go writes the text that JavaScript writes if and only if both quote the key provider alike |
| `MrConfigQuoting.ControlDiffers` | go/dstack_helpers.go:330-360 | a concrete key provider on which they do not |
| `MrConfigQuoting.GoCanonicalInjective` | go/dstack_helpers.go:330-360 | different documents have different Go texts, whatever characters they hold |
| `MrConfig.NamesAreSorted` | go/dstack_helpers.go:324-329 | member names are strictly ascending in UTF-16 units, as section 3.2.3 of RFC 8785 requires |
| `MrConfig.ReadInvertsCanonical` | go/dstack_helpers.go:320-360 | a reader recovers every document from its canonical JSON text, absent and empty script lists included |
| `MrConfig.CanonicalInjective` | go/dstack_helpers.go:185-192 | different documents have different canonical JSON texts |
| `MrConfig.FixedOrderIsSortedOrder` | js/src/utils/get_mr_config_id.ts:216-232 | JavaScript's sort-then-print gives the canonical JSON text, with members in Go's fixed order, on every document |
| `MrConfigId.Pack` | go/dstack_helpers.go:80-87 | a zeroed 48-byte array filled with version and digest |
| `MrConfigId.GetMrConfigId` | go/dstack_helpers.go:106-123 | the version 2 id packs the hash of the concatenated fields; unknown providers are errors |
| `MrConfigId.GetMrConfigIdHex` | go/dstack_helpers.go:126-166 | the hex wrapper decodes, checks sizes in order and encodes, or returns the first error |
| `MrConfigId.GetMrConfigIdV3Hex` | go/dstack_helpers.go:395-402 | succeeds exactly on acceptable inputs, with the id of their document, and otherwise returns the builder's error |
| `MrConfigId.VerifyMrConfigIdAnyVersion` | go/dstack_helpers.go:419-457 | dispatches on the version byte; false without a named version, an error exactly when the id cannot be recomputed, and which one, otherwise the comparison |
| `IdLayout.V1Layout` | go/dstack_helpers.go:80-87 | the version 1 id is byte 1, the compose hash and 15 zeros |
| `IdLayout.V2Layout` | go/dstack_helpers.go:65-166 | for all bytes, however they are spelled, the version 2 id is byte 2, Keccak-256 of compose hash, application id, provider byte and provider id one behind the other, and 15 zeros; "none", "local", "kms" and "tpm" are 0, 1, 2 and 3, and no other provider has an id |
| `IdLayout.V2OfBytes` | go/dstack_helpers.go:126-166 | the bare and the 0x spellings of the same bytes give the same id |
| `IdLayout.V2Errors` | go/dstack_helpers.go:126-166 | each of its six errors comes exactly when its field is the first one at fault |
| `IdLayout.V3Layout` | go/dstack_helpers.go:362-402 | the version 3 id is byte 3, SHA-256 of the domain, a zero byte and the text of the document, and 15 zeros |
| `IdLayout.OtherVersions` | go/dstack_helpers.go:419-457 | no other version has an id |
| `IdLayout.VerifyErrors` | go/dstack_helpers.go:419-457 | what verification fails with for each version that an id may name |
| `MrConfigId.AcceptsExactlyTheIds` | go/dstack_helpers.go:414-457 | a spelling is accepted if and only if it spells, up to prefix and case, an id of some version recomputed from the input |
| `MrConfigId.GeneratedIdsVerify` | go/dstack_helpers.go:414-457 | every generated id verifies, bare or prefixed, in any letter case |
| `MrConfigId.VersionsNeverCollide` | go/dstack_helpers.go:372-384 | ids of different versions never coincide, whatever their inputs |
| `MrConfigId.PreImageInjective` | go/dstack_helpers.go:99-117 | the version 2 concatenation determines all four fields |
| `MrConfigId.IdV3Binds` | go/dstack_helpers.go:362-384 | equal version 3 ids mean equal documents or a SHA-256 collision |
| `MrConfigId.V2AcceptsExactly` | go/dstack_helpers.go:126-166 | of the inputs versions 1 and 3 accept, version 2 accepts exactly those with an application id, a known provider and no upper-case prefix left on any of its three hex fields |
| `MrConfigId.UpperPrefixRejectedByV2` | go/dstack_helpers.go:127-134 | the failing inputs for one field: with 0X in front of the compose hash there is no version 2 id, though there is a version 1 id |
| `JsMrConfig.BuildJsDocument` | js/src/utils/get_mr_config_id.ts:161-203 | the JavaScript builder accepts exactly its acceptable inputs and assigns the document |
| `JsMrConfig.BuildersAgree` | js/src/utils/get_mr_config_id.ts:139-203 | both builders give the same document or both reject, with the exact exceptions |
| `JsMrConfig.BuildersDiffer` | js/src/utils/get_mr_config_id.ts:139-203 | a concrete input that only Go accepts, and one that only JavaScript accepts |
| `JsMrConfig.JsGetMrConfigId` | js/src/utils/get_mr_config_id.ts:67-93 | filling the payload at a moving offset hashes the same bytes as Go's concatenation |
| `JsMrConfig.VerifiersAgree` | js/src/utils/get_mr_config_id.ts:287-316 | for every id text, if the fields that its version reads have their declared types (in version 3 only a key provider quoted alike and no doubled or bare prefix), the two verifiers answer alike, doubled prefixes of the id aside |
| `Logs.ParseStructuredLogsToEntries` | cli/src/api/cvms.ts:323-336 | the batch loop gives the entries of the lines in order |
| `Logs.DecodeStructuredLogsText` | cli/src/api/cvms.ts:338-353 | the text is the concatenation of the batch messages |
| `Logs.FlushLines` | cli/src/api/cvms.ts:460-466 | the inner loop emits every complete line, and with the rest of the body nothing is lost |
| `Logs.EntriesOfLine` | cli/src/api/cvms.ts:323-336 | a blank line is dropped, a structured one gives its entry, any other goes to standard output with a line feed |
| `Logs.PlainBody` | cli/src/api/cvms.ts:323-336 | the entries of a body without structured lines are its lines that are not blank, carriage returns of line ends dropped, each on standard output with a line feed |
| `Logs.RawChunks` | cli/src/api/cvms.ts:439-458 | a raw stream sends every chunk as it is to standard output |
| `Text.SpacesListed` | cli/src/api/cvms.ts:327 | the white space that trimming removes, character by character |
| `Logs.StreamEntries` | cli/src/api/cvms.ts:416-475 | for every way of cutting the body the stream emits what the mode of its first chunk calls for |
| `Logs.StreamIsBatch` | cli/src/api/cvms.ts:323-336 | a structured stream yields the batch entries if and only if every CR LF line is blank or structured |
| `Logs.StreamDiffersFromBatch` | cli/src/api/cvms.ts:323-336 | a concrete body, a line of text ending in CR LF, on which they differ |
| `Logs.RawStreamIsBody` | cli/src/api/cvms.ts:441-444 | messages of a raw stream concatenate to the body |
| `Logs.ModeMatchesBody` | cli/src/api/cvms.ts:448-458 | the first chunk decides as the whole body would, except for a blank chunk before a structured body |
| `Logs.BlankFirstChunk` | cli/src/api/cvms.ts:448-458 | a concrete chunking in which it does not |
| `Logs.ChunkingDoesNotMatter` | cli/src/api/cvms.ts:628-632 | for chunkings without a blank first chunk: two of one structured body give the same entries, which are those of the fetched body if and only if every CR LF line is blank or structured; a raw stream shows the text of the fetched body, carriage returns included |
| `Watch.StreamSSE` | go/cvms_watch.go:127-195 | the scanner loop delivers what the event grammar of the code defines |
| `Watch.WatchCVMState` | go/cvms_watch.go:86-113 | the reconnect loop over any sequence of connection attempts |
| `Watch.StreamIsSafe` | go/cvms_watch.go:144-189 | within one stream a complete event carries a status and is last, there exactly when the stream completed, and a timeout event is last too |
| `Watch.WatchIsSafe` | go/cvms_watch.go:86-113 | over every run a complete event carries a status, is last and ends the run; a run that gives up ends with an error event |
| `Watch.ConnectionsBounded` | go/cvms_watch.go:96-105 | at most MaxRetries + 1 connections, after which the run has ended, and giving up only on a permanent refusal or an exhausted limit |
| `Watch.ConnectionShape` | go/cvms_watch.go:90-112 | every connection but the last failed, so nothing reconnects after success |
| `Watch.EventsAreConcatenated` | go/cvms_watch.go:86-113 | delivered events are the concatenation of the connections' parses plus one error event exactly when the loop gives up |
| `Watch.BlocksAreDelivered` | go/cvms_watch.go:144-189 | well-formed blocks arrive one by one and in order |
| `Watch.LastBlockEndsStream` | go/cvms_watch.go:144-189 | behind such blocks a final complete or timeout block is delivered and ends the stream as completed or timed out; nothing after it is read |
| `WatchFrames.FrameRead` | go/cvms_watch.go:144-189 | whatever lines a frame has, the last event line and the last data line count and all others are passed over |
| `WatchFrames.FrameMeaning` | go/cvms_watch.go:144-189 | what any frame delivers: nothing, a failure for complete without a status, or its event with its data and error text, and which kinds end the stream |
| `WatchFrames.UnfinishedFrame` | go/cvms_watch.go:144-195 | a frame that no empty line ends delivers nothing |
| `WatchFrames.TurnMeaning` | go/cvms_watch.go:86-125 | one turn of the reconnect loop on any connection attempt: what ends it, which six statuses are tried again, and the error event of giving up |
| `Wrap.WrapText` | cli/src/utils/logger.ts:452-475 | the loop over words with its current line |
| `Wrap.PiecesAreWords` | cli/src/utils/logger.ts:453 | splitting gives words, with empty pieces only at the ends |
| `Wrap.GreedyIsGroups` | cli/src/utils/logger.ts:457-468 | the loop's lines are the greedy groups of the words |
| `Wrap.GroupsWrap` | cli/src/utils/logger.ts:448-451 | the greedy groups keep the word sequence, and each fits or is a single word |
| `Wrap.GreedyIsOptimal` | cli/src/utils/logger.ts:452-475 | no partition of the words into admissible lines has fewer lines |
| `Wrap.WrappingIsOptimal` | cli/src/utils/logger.ts:452-475 | the same for the text the function is given, white space at its ends included |
| `Wrap.GreedyExactly` | cli/src/utils/logger.ts:457-468 | the greedy groups are the only admissible partition in which the first word of every line would not have fitted on the line before |
| `WrapLines.SplitIntoChunks` | cli/src/utils/logger.ts:481-495 | the slicing loop computes the chunks, whenever it ends |
| `WrapLines.ChunksReturn` | cli/src/utils/logger.ts:481-495 | splitting into chunks returns if and only if the size is positive or the text is empty |
| `WrapLines.ChunksAreTheText` | cli/src/utils/logger.ts:477-495 | chunks concatenate to the text; all but the last have the full size and none is empty |
| `WrapLines.WrapTextLines` | cli/src/utils/logger.ts:501-529 | the loop over lines with its three cases and the empty fallback, whenever it ends |
| `WrapLines.WrapReturnsExactly` | cli/src/utils/logger.ts:501-529 | for every text and width, some number of turns gets past the last line if and only if the width is positive or every line is empty or has a space |
| `WrapLines.KeyColumnReturns` | cli/src/utils/logger.ts:779-818 | wrapping a key of the key-value table in its shrunk column returns if and only if the column has not shrunk to nothing |
| `WrapLines.ShortKeyNeverReturns` | cli/src/utils/logger.ts:779-818 | a concrete key, value and terminal width on which it does not |
| `WrapLines.WrappingKeepsInk` | cli/src/utils/logger.ts:497-529 | no character but white space is lost, added or reordered |
| `WrapLines.WrappingFits` | cli/src/utils/logger.ts:497-529 | every line fits or is one unbroken word |
| `WrapLines.FittingTextIsKept` | cli/src/utils/logger.ts:497-509 | a text comes back line for line if and only if all its lines fit |
| `WrapLines.LineByCase` | cli/src/utils/logger.ts:501-521 | a line that fits stays, one without spaces is cut into pieces of full width, any other is wrapped by words |
| `WrapLines.TextOfLines` | cli/src/utils/logger.ts:501-529 | the lines of a text are the pieces of its lines in order, or one empty line |
| `Registry.CommandRegistry.EnsurePath` | cli/src/core/registry.ts:103-114 | missing nodes are created along the path, and the trie grows by exactly those |
| `Registry.CommandRegistry.GetChild` | cli/src/core/registry.ts:123-136 | direct child first, then alias |
| `Registry.CommandRegistry.GetNode` | cli/src/core/registry.ts:91-101 | the walk by children and aliases |
| `Registry.CommandRegistry.RegisterCommand` | cli/src/core/registry.ts:35-46 | the new trie, the invariant kept |
| `Registry.CommandRegistry.RegisterGroup` | cli/src/core/registry.ts:22-33 | the new trie, the invariant kept |
| `Registry.CommandRegistry.RegisterAliases` | cli/src/core/registry.ts:39-45 | the aliases are set at the parent the walk finds |
| `Registry.CommandRegistry.ResolveCommand` | cli/src/core/registry.ts:48-81 | the loop with its last match computes the resolution |
| `Registry.Resolve` | cli/src/core/registry.ts:68-80 | consumed and remaining concatenate to the input |
| `Registry.RegisteredSound` | cli/src/core/registry.ts:22-46 | after any sequence of registrations every alias points at an existing child |
| `Registry.RegisteredPathResolves` | cli/src/core/registry.ts:48-81 | a registered non-empty path resolves, consumed whole, to the last definition registered at it, whatever else is registered |
| `Registry.ArgumentsDoNotShorten` | cli/src/core/registry.ts:48-81 | arguments after a registered path never make it resolve to a shorter one |
| `Registry.ConsumedIsLongest` | cli/src/core/registry.ts:48-66 | the consumed segments are the longest prefix of the walk that ends on a command |
| `Registry.AliasResolves` | cli/src/core/registry.ts:123-136 | an alias leads to its command where no child carries its name |
| `Registry.NewAliasResolves` | cli/src/core/registry.ts:35-46 | an alias registered last leads to its command unless a sibling carries the name |
| `RegistryContents.RegisteredExactly` | cli/src/core/registry.ts:22-46 | after any registrations there is a node for every prefix of a registered path and no other, a group where one was registered last, and an alias for the name it was registered with last |
| `RegistryContents.WordLeads` | cli/src/core/registry.ts:91-136 | where each word of a walk leads: the child of that name, else what the word was last an alias of, else nowhere |
| `RegistryContents.WalkEnds` | cli/src/core/registry.ts:91-101 | the walk starts at the root and never comes back from nowhere |
| `RegistryContents.ResolvesExactly` | cli/src/core/registry.ts:48-81 | a resolution is the last definition at the end of the longest non-empty prefix that leads to a command, with the words split behind it; there is none exactly when no prefix does |
| `Hoist.HoistLeadingGlobalOptions` | cli/src/core/parser.ts:73-114 | the two loops compute the hoisted line |
| `Hoist.NextIndex` | cli/src/core/parser.ts:81-106 | one turn of the loop: how many tokens the option takes |
| `HoistForms.OptionsHoisted` | cli/src/core/parser.ts:64-114 | options in front, written as `--flag`, `--name value` or `--name=value`, stand behind the command words afterwards |
| `HoistForms.HoistedExactly` | cli/src/core/parser.ts:64-114 | every command line is such options, command words and a rest, with no further option of the table, in any way of writing, in front of the words; hoisting exchanges the first two |
| `HoistForms.GlobalOptionHoisted` | cli/src/core/parser.ts:64-114 | every name of the global table, listed, moves behind a command word in each of the ways it may be written |
| `HoistForms.ParsesItems` | cli/src/core/parser.ts:31-62 | the parser reads any list of written options and words back, in order, and passes through what stands behind "--" |
| `HoistForms.ParseFails` | cli/src/core/parser.ts:31-62 | it fails with the name at the first option it does not know or that lacks its value |
| `Hoist.HoistingIsABlockMove` | cli/src/core/parser.ts:64-72 | the result moves one block behind the command words, keeping the order inside every block |
| `Hoist.HoistingPermutes` | cli/src/core/parser.ts:108-113 | no token is lost, added or repeated |
| `Hoist.HoistingIdempotent` | cli/src/core/parser.ts:73-114 | hoisting twice is hoisting once |
| `Hoist.SegmentsAfterHoisting` | cli/src/core/dispatcher.ts:619-628 | command resolution sees the words it would see without the leading options |
| `Hoist.ScanLeading` | cli/src/core/parser.ts:64-72 | a left-to-right scan reads the leading block as the same options wherever it stands |
| `Hoist.ParsingIgnoresHoisting` | cli/src/core/parser.ts:31-72 | for every command line and every option table that agrees with the global one on its names, parsing after hoisting gives the same options, positionals and pass-through arguments, or fails alike |
| `Hoist.HoistingInvisibleExactly` | cli/src/core/parser.ts:31-72 | the tables for which this holds on all command lines are exactly those that agree |
| `Hoist.CommandNoticesExactly` | cli/src/core/parser.ts:31-72 | a command with its own options notices hoisting if and only if one of them gives a global name another kind |
| `Hoist.SshNeverNotices` | cli/src/commands/ssh/command.ts:11-48 | the options of ssh, which redefine -v with the same kind, never notice |
| `Hoist.ResizeNotices` | cli/src/commands/cvms/resize/command.ts:10-55 | those of cvms resize, where -v takes a value, do: one command line is read before and rejected after hoisting |
| `Tracker.TransactionTracker.Execute` | js/src/utils/transaction.ts:98-128 | execute up to its first await is the start step |
| `Tracker.TransactionTracker.ContinueAfterOperation` | js/src/utils/transaction.ts:128-163 | from the settled operation to the wait for the receipt |
| `Tracker.TransactionTracker.ContinueAfterRace` | js/src/utils/transaction.ts:165-210 | from the settled race to the end, catch clause included |
| `Tracker.TransactionTracker.TimeoutCallback` | js/src/utils/transaction.ts:145-152 | the timer's callback |
| `Tracker.TransactionTracker.AbortNow` | js/src/utils/transaction.ts:68-81 | abort, with its listener |
| `Tracker.TransactionTracker.ResetStatus` | js/src/utils/transaction.ts:56-66 | reset outside a run |
| `Timeline.StartStage` | js/src/utils/transaction.ts:98-128 | in every history, a run with an aborted signal fails at once; any other shows submitting until its operation settles or it is aborted, whatever else happens |
| `Timeline.HashStage` | js/src/utils/transaction.ts:122-128 | the same while its operation has settled and it has not gone on |
| `Timeline.SubmittedFails` | js/src/utils/transaction.ts:128-141 | a failed operation or a throwing callback ends the run with an error |
| `Timeline.WaitingStage` | js/src/utils/transaction.ts:141-163 | while the receipt is awaited the state is timeout if and only if a timeout was set and its timer has fired since, and pending otherwise, an error if onSubmitted aborted aside |
| `Timeline.EndStage` | js/src/utils/transaction.ts:165-210 | how the run ends for every receipt and callback, and the whole state it leaves |
| `Timeline.AbortStage` | js/src/utils/transaction.ts:68-81 | abort at any time: the status, the timer, the controller and a listening race |
| `Timeline.AbortBeforeHash` | js/src/utils/transaction.ts:122-133 | an abort before the operation is continued makes the continuation throw |
| `Timeline.ResetStage` | js/src/utils/transaction.ts:56-66 | reset outside a run gives the status of a new tracker |
| `Tracker.RunConsistent` | js/src/utils/transaction.ts:47-211 | an invariant of status, timer, controller and suspension point over every interleaving |
| `Tracker.SettledStateExactly` | js/src/utils/transaction.ts:165-210 | in every history whose last run has ended, one step ended it: with success for a return and error for a throw, an abort inside onConfirmed aside, and only later aborts and resets have changed the state since |
| `Tracker.AbortOnConfirmedMisleads` | js/src/utils/transaction.ts:165-180 | a concrete run that returns while the tracker shows an error |
| `Tracker.TimeoutIsTransient` | js/src/utils/transaction.ts:143-153 | timeout shows only while the receipt is awaited, and the run can still succeed |
| `Tracker.LateTimerIsHarmless` | js/src/utils/transaction.ts:145-152 | a timer that fires after settlement changes no status |
| `Tracker.DoomedExactly` | js/src/utils/transaction.ts:122-133 | under every interleaving a run is bound to throw exactly when some step of it went wrong |
| `Tracker.ReturnsExactlyWhenNothingWrong` | js/src/utils/transaction.ts:83-211 | a finished run returned if and only if no abort landed in it and nothing failed |
| `Tracker.ListeningExactly` | js/src/utils/transaction.ts:141-163 | whenever the receipt is awaited, the race listens for an abort if and only if this run's onSubmitted callback has not aborted |
| `Tracker.AbortWhileWaiting` | js/src/utils/transaction.ts:155-163 | in every history, an abort while the receipt is awaited makes the run throw however it goes on, unless its onSubmitted callback had aborted before: then the wait goes on unchanged |
| `Tracker.AbortInCallbackIsLost` | js/src/utils/transaction.ts:141-163 | a concrete run in which an abort from onSubmitted is lost |
| `Retry.DoWithRetry` | go/retry.go:16-51 | at most maxRetries + 1 runs, one sleep between two runs and none after the last, no run past a cancelled wait, and which answer means what |
| `Retry.TotalSleep` | go/retry.go:35-42 | n sleeps without Retry-After last 31 + 20(n - 5) seconds for n of at least 5, and 2^n - 1 below |
| `Retry.DelayAt` | go/retry.go:35-42 | every single delay: the Retry-After of the answer if it is not zero, else 1, 2, 4, 8, 16 and then 20 seconds |
| `Retry.RetryLoop` | js/src/utils/transaction.ts:360-386 | a fresh run per attempt, when it stops, and the delays slept |
| `Retry.ExecuteTransactionWithRetry` | js/src/utils/transaction.ts:345-387 | the same with the saturating delay update |
| `Retry.BackoffClosedForm` | js/src/utils/transaction.ts:380-382 | the iterated minimum equals the capped power for every factor of at least one |
| `Retry.ShrinkingFactorDiffers` | js/src/utils/transaction.ts:380-382 | a concrete factor, start and cap for which it does not |
| `Retry.ClosedFormExactly` | js/src/utils/transaction.ts:380-382 | the two agree at every retry if and only if the factor is at least one or the first delay after the initial one is not capped |
| `Retry.ExecuteSequentially` | js/src/utils/transaction.ts:276-332 | the loop with its catch clause and progress callback computes the entries of the batch, or the call rejects, and the counts are those of the entries |
| `Retry.OneEntryEachExactly` | js/src/utils/transaction.ts:279-306 | there are never fewer entries than operations, and as many if and only if the callback returns for every operation that runs |
| `Retry.EntriesInPlace` | js/src/utils/transaction.ts:279-306 | then the entries are the outcomes in their places, and fail-fast cancels everything behind the first failure |
| `Retry.CallbackDoublesEntry` | js/src/utils/transaction.ts:286-298 | a concrete batch of one successful operation with two entries |
| `Retry.CallbackCases` | js/src/utils/transaction.ts:279-306 | one operation of a batch, for every outcome and callback: which entries are added, when the rest is cancelled and when the call rejects |
| `Dotenv.FindDelimiter` | cli/src/utils/secrets.ts:34-68 | the loop with its quote state finds the delimiter |
| `Dotenv.FindComment` | cli/src/utils/secrets.ts:83-115 | the loop with its quote state finds the inline comment |
| `Dotenv.ScanLine` | cli/src/utils/secrets.ts:23-183 | the body of the line loop |
| `Dotenv.ParseEnv` | cli/src/utils/secrets.ts:4-184 | direct arguments first, then the lines of the file, later ones winning |
| `Dotenv.QuotedRoundTrip` | cli/src/utils/secrets.ts:127-137 | a single-quoted value is read back as it was, whatever else it contains |
| `Dotenv.InlineComment` | cli/src/utils/secrets.ts:83-119 | an inline comment is stripped if and only if the value does not end in a backslash |
| `Dotenv.ItemParses` | cli/src/utils/secrets.ts:23-183 | a printed entry, commented entry, blank line or comment line means what it should |
| `Dotenv.FileRoundTrip` | cli/src/utils/secrets.ts:21-184 | a printed file of such lines parses to the last-wins map of its entries on top of the arguments |
| `Dotenv.PutAllIsLastWins` | cli/src/utils/secrets.ts:179-182 | a key has the value of its last pair; "__proto__" never gets one |
| `Dotenv.CarriageReturnKeepsQuotes` | cli/src/utils/secrets.ts:127-137 | with a carriage return behind an entry without comment its value keeps its quotes |
| `Dotenv.CarriageReturnMatters` | cli/src/utils/secrets.ts:23-183 | a carriage return at the end of a printed line changes what the line means if and only if it is such an entry |
| `DotenvValues.DoubleQuotedLine` | cli/src/utils/secrets.ts:127-142 | `KEY="v"` gives v with exactly the patterns of two backslashes and an n turned into newlines |
| `DotenvValues.QuotedLine` | cli/src/utils/secrets.ts:83-142 | a value in any of the three quotes loses them and keeps the rest, also with a comment behind it |
| `DotenvValues.PlainLine` | cli/src/utils/secrets.ts:83-177 | a value without quotes is trimmed, also with a comment behind it |
| `DotenvValues.LoneQuote` | cli/src/utils/secrets.ts:127-142 | a single quote character is the value |
| `DotenvValues.QuotedKey` | cli/src/utils/secrets.ts:34-68 | a "=" inside a quoted key does not end it |
| `DotenvValues.NothingSet` | cli/src/utils/secrets.ts:23-80 | the lines that set nothing |
| `DotenvValues.ArgumentParses` | cli/src/utils/secrets.ts:7-19 | a direct argument sets its key to all that stands behind the first "=" |
| `DotenvValues.ParsedInOrder` | cli/src/utils/secrets.ts:4-184 | the result holds what the arguments set and over it what the lines set, each in order |
| `Shell.QuoteUnless` | cli/src/utils/ssh-utils.ts:279-287 | an argument is left as it is if and only if it is non-empty and all its characters are safe |
| `Shell.QuotedForms` | cli/src/utils/ssh-utils.ts:279-287 | the three quotings spelled out: which arguments stay bare, and quotes around all others with each quote written as a closed, escaped and reopened one |
| `Shell.ShellEscapeRoundTrip` | cli/src/utils/ssh-utils.ts:275-287 | tokenising the escaped arguments joined by spaces, by sections 2.2.1, 2.2.2 and 2.3 of the POSIX Shell Command Language, gives back exactly the list |
| `Shell.ShellQuoteRoundTrip` | cli/src/lib/docs-mcp.ts:183-186 | the same for the quoting that always quotes |
| `Shell.RetryQuoteRoundTrip` | cli/src/commands/allow-devices/index.ts:238-252 | the same for the quoting of the retry command, with its larger safe class |
| `Shell.SafeClassesAreOrdinary` | cli/src/utils/ssh-utils.ts:279-287 | leaving a class of characters bare is right for all lists if and only if none of them is special to the shell |
| `DocsOutput.ParseDocsFsOutput` | cli/src/lib/docs-mcp.ts:138-169 | the loop over lines with its section state |
| `DocsOutput.ExitTaken` | cli/src/lib/docs-mcp.ts:141-146 | the exit line of a wrapped result is recognised, negative codes included, and removed |
| `DocsOutput.ExitLineTaken` | cli/src/lib/docs-mcp.ts:141-146 | the exit line with any white space, sign and line end |
| `DocsOutput.TextRead` | cli/src/lib/docs-mcp.ts:138-169 | a text is read as its exit code, or 0 without an exit line, with what stands in either section; lines in front are dropped, and without a section all of it is standard output |
| `DocsOutput.RunCollects` | cli/src/lib/docs-mcp.ts:151-165 | each stream collects, in order, exactly the lines that stand in its section; markers and lines before the first marker go nowhere |
| `DocsOutput.WrappingIsRead` | cli/src/lib/docs-mcp.ts:127-169 | the reader gives back a wrapped result if and only if no line of either stream is a section marker |
| `Hostname.CleanIsJoinedWords` | js/src/utils/hostname.ts:67-91 | the replacement pipeline keeps exactly the runs of letters and digits, joined by single hyphens |
| `Hostname.ConversionIsValid` | js/src/utils/hostname.ts:60-121 | the result is a valid lower-case name unless no letter or digit is left; the last two fallbacks are unreachable |
| `Hostname.ConversionOfOrdinaryText` | js/src/utils/hostname.ts:40-59 | texts of ordinary length become their joined words |
| `Hostname.ConversionOfOtherText` | js/src/utils/hostname.ts:93-121 | the other ones: which get the prefix, and where those too long are cut |
| `Hostname.CamelBorders` | js/src/utils/hostname.ts:67-71 | camel case is split with a hyphen at each border between a small letter and a capital and nowhere else |
| `Hostname.FixedPoints` | js/src/utils/hostname.ts:60-121 | a text is converted to itself if and only if it is a valid name without capitals |
| `Hostname.ConversionIdempotent` | js/src/utils/hostname.ts:60-121 | converting a converted name changes nothing |
| `Hostname.FallbackValidity` | js/src/utils/hostname.ts:123-136 | a generated name is valid if and only if its random part is not empty |
| `Hostname.DefaultNameValidity` | js/src/utils/hostname.ts:138-174 | for a valid prefix the default name is valid if and only if the cut does not fall right after a hyphen |
| `Versions.MatchText` | scripts/bump-version.js:7-19 | the version pattern accepts every well-formed text and captures its groups |
| `Versions.MatchedText` | scripts/bump-python-version.py:11-21 | what the pattern accepts is the spelling of its groups, plus at most one newline in Python |
| `Versions.ParsePrint` | scripts/bump-version.js:7-19 | parsing undoes printing for every version |
| `Versions.PrintParse` | scripts/bump-python-version.py:11-21 | printing undoes parsing if and only if the numerals are canonical and no newline follows |
| `Versions.BumpParsed` | scripts/bump-version.js:22-74 | the switch over locals computes the bump |
| `Versions.BumpVersion` | scripts/bump-version.js:22-74 | fails exactly on texts the pattern rejects; what it writes is read back as the bumped version |
| `VersionTexts.BumpOfFinal` | scripts/bump-version.js:22-74 | for all numbers the text written for a release: the number named is raised, those behind it are zero, and a tag starts at 1 |
| `VersionTexts.BumpToFinal` | scripts/bump-version.js:57-61 | without a tag a pre-release becomes its release |
| `VersionTexts.BumpToSameTag` | scripts/bump-version.js:25-30 | with its own tag its number counts on |
| `VersionTexts.BumpToOtherTag` | scripts/bump-version.js:32-54 | with another tag it is bumped as its release |
| `Versions.PrecedesIsStrictOrder` | scripts/bump-version.js:22-74 | precedence by section 11 of Semantic Versioning 2.0.0 is a strict total order |
| `Versions.BumpIncreases` | scripts/bump-version.js:22-74 | every bump strictly increases precedence |
| `Versions.HistoryIncreases` | scripts/bump-version.js:132-154 | no chain of releases, taken numbers skipped or not, returns to an earlier version |
| `Versions.FindNextAvailable` | scripts/bump-version.js:132-154 | the first free number of ten, or all ten are taken |
| `Versions.MakeRelease` | scripts/bump-version.js:194-226 | what is released is free and comes after the current version; a failure means what it says is taken |
| `Versions.PepRoundTrip` | scripts/bump-python-version.py:70-86 | translating to PEP 440 and back is the identity if and only if no newline follows |
| `VersionTexts.TranslatedFinal` | scripts/bump-python-version.py:70-86 | a release is translated to itself and back |
| `VersionTexts.TranslatedPre` | scripts/bump-python-version.py:70-86 | for all numbers, "-alpha.", "-beta." and "-rc." become "a", "b" and "rc", and back |
| `VersionTexts.TranslatedBack` | scripts/bump-python-version.py:168-183 | the way back accepts any digits and a final newline, which it drops |
| `VersionTexts.TranslatedBackOnly` | scripts/bump-python-version.py:168-183 | and gives every other text back unchanged |
| `Versions.TranslatingTwice` | scripts/bump-python-version.py:51-68 | translating a translated version succeeds only for final releases |
| `Versions.ReadTranslated` | scripts/bump-python-version.py:51-68 | every text the translation writes is read by the PEP 440 grammar as the release and phase of the version it came from |
| `Versions.PepOrderAgrees` | scripts/bump-python-version.py:51-68 | the translation is monotone both ways: PEP 440's order on the written texts is precedence on the versions |

## Left out

- HTTP clients, actions, authentication, environment encryption and the hash functions themselves: plumbing or foreign code.
- `GetComposeHash` and the struct form of a compose document: they add only a JSON round trip before the functions modelled here.
- Byte-level and UTF-16 views of strings: lengths of astral characters, invalid UTF-8, and Go's byte-wise walk (which passes multi-byte characters through).
- JavaScript's re-printing of numbers as doubles.
- LineSeparators.StringMeaning: a literal with a lone surrogate escape has no characters here, so nothing is said about it; white space between tokens is not read either.
- MrConfigId.GetMrConfigId: its digest is a parameter, so only what is hashed is described.
- JsMrConfig.JsGetMrConfigId: takes decoded bytes, because hex decoding there belongs to a foreign library.
- JsMrConfig.BuildJsDocument: throws are merged into one failure; messages are not modelled.
- streamStructuredLogsResponse (cli/src/api/cvms.ts:355-414): the same control flow as the entry stream, emitting messages only.
- Watch.WatchCVMState: option validation and defaults, headers and scanner line limits are not modelled; JSON decoding and trimming are parameters.
- SSE standard conformance: the code's own grammar is modelled, in which only the last data line counts.
- Registry.CommandRegistry.GetNode: `getChildren` and iteration order of children are not modelled.
- Hoist.HoistingInvisibleExactly: the argument library is reduced to a left-to-right scanner, without bundled short flags and negative numbers as values.
- Tracker.TransactionTracker.Execute: overlapping calls, reset in the middle of a run, hashes, receipts, time stamps and `onError` calls are not modelled.
- Retry.ExecuteSequentially: the parallel mode and skipped undefined operations are not modelled.
- Retry.DoWithRetry: Retry-After dates are not modelled; a delay is a number of seconds.
- Dotenv.ParseEnv: the order of the resulting list (integer-like keys come first in JavaScript) is not modelled; the result is a map.
- WrapLines.SplitIntoChunks: a Dafny method has to end, so it is given the calls that do; `WrapLines.ChunksReturn` shows that these are all.
- WrapLines.WrapTextLines: the same, by `WrapLines.WrapReturnsExactly`.
- WrapLines.KeyColumnReturns: the column is computed exactly, where the source rounds a quotient of doubles.
- Hostname.ConversionIsValid: lower-casing is a parameter of which two facts are assumed: it leaves no ASCII capital and keeps texts of small letters, digits and hyphens.
- Versions.MakeRelease: network answers are an oracle; file rewriting, precision of numerals beyond 2^53 in JavaScript and non-ASCII digits in Python are not modelled.
- Shell.ShellEscapeRoundTrip: the tokeniser covers simple command lines; an unquoted special character makes it fail rather than expand, and `=` in command position (an assignment) is not considered.
- Terminal UI, completion scripts, simulator control, storage migration, update checks, credentials store, CVM id normalisation: no further algorithm, or only easy members.
