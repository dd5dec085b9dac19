/** Normalisation of a compose document before hashing, as the backend does it. */
module Compose {
  import opened Text
  import opened Canonical
  import Decimal
  import OsImage

  const OMIT_WHEN_NIL: seq<string> :=
    ["event_log_version", "key_provider", "port_policy", "requirements",
     "snapshotter", "storage_discard", "swap_size", "verity_volumes"]

  const OMIT_WHEN_EMPTY: seq<string> :=
    ["default_gateway_domain", "key_provider_id", "pre_launch_script", "salt"]

  type Fields = map<string, Value>

  datatype ComposeError = BadInitScript | TooManyInitScripts

  // ----- the pure description

  function DropScript(m: Fields): Fields {
    if "runner" !in m then m
    else if m["runner"] == Str("bash") then m - {"docker_compose_file"}
    else if m["runner"] == Str("docker-compose") then m - {"bash_script"}
    else m
  }

  function AddTproxy(m: Fields): Fields {
    if "tproxy_enabled" in m then m
    else m["tproxy_enabled" := if "gateway_enabled" in m then m["gateway_enabled"] else Bool(true)]
  }

  /** Go drops null and ""; JavaScript drops every falsy value. `zero` tells which
      number tokens JavaScript reads as 0. */
  predicate Empty(c: Client, zero: string -> bool, v: Value) {
    match v
    case Null => true
    case Str(s) => s == ""
    case Bool(b) => c.Js? && !b
    case Num(token) => c.Js? && zero(token)
    case _ => false
  }

  function DropNil(m: Fields, keys: seq<string>): Fields {
    if keys == [] then m
    else DropNil(if keys[0] in m && m[keys[0]] == Null then m - {keys[0]} else m, keys[1..])
  }

  function DropEmpty(c: Client, zero: string -> bool, m: Fields, keys: seq<string>): Fields {
    if keys == [] then m
    else DropEmpty(c, zero, if keys[0] in m && Empty(c, zero, m[keys[0]]) then m - {keys[0]} else m, keys[1..])
  }

  function Normalized(c: Client, zero: string -> bool, m: Fields): Fields {
    DropEmpty(c, zero, DropNil(AddTproxy(DropScript(m)), OMIT_WHEN_NIL), OMIT_WHEN_EMPTY)
  }

  /** No token is falsy for Go. */
  const NONE: string -> bool := t => false

  // ----- the code, on a map it updates in place

  /** A mutable Go map. */
  class ComposeMap {
    var fields: Fields

    constructor ()
      ensures fields == map[]
    {
      fields := map[];
    }

    method NormalizeComposeMap()
      modifies this
      ensures fields == Normalized(Go, NONE, old(fields))
    {
      if "runner" in fields {
        match fields["runner"]
        case Str("bash") => fields := fields - {"docker_compose_file"};
        case Str("docker-compose") => fields := fields - {"bash_script"};
        case _ =>
      }
      if "tproxy_enabled" !in fields {
        var gateway := if "gateway_enabled" in fields then fields["gateway_enabled"] else Bool(true);
        fields := fields["tproxy_enabled" := gateway];
      }
      assert fields == AddTproxy(DropScript(old(fields)));
      DropNilFields();
      DropEmptyFields();
    }

    method DropNilFields()
      modifies this
      ensures fields == DropNil(old(fields), OMIT_WHEN_NIL)
    {
      for i := 0 to |OMIT_WHEN_NIL|
        invariant DropNil(fields, OMIT_WHEN_NIL[i..]) == DropNil(old(fields), OMIT_WHEN_NIL)
      {
        ghost var rest := OMIT_WHEN_NIL[i..];
        assert rest[0] == OMIT_WHEN_NIL[i] && rest[1..] == OMIT_WHEN_NIL[i + 1..];
        var key := OMIT_WHEN_NIL[i];
        if key in fields && fields[key] == Null {
          fields := fields - {key};
        }
      }
    }

    method DropEmptyFields()
      modifies this
      ensures fields == DropEmpty(Go, NONE, old(fields), OMIT_WHEN_EMPTY)
    {
      for i := 0 to |OMIT_WHEN_EMPTY|
        invariant DropEmpty(Go, NONE, fields, OMIT_WHEN_EMPTY[i..]) ==
                  DropEmpty(Go, NONE, old(fields), OMIT_WHEN_EMPTY)
      {
        ghost var rest := OMIT_WHEN_EMPTY[i..];
        assert rest[0] == OMIT_WHEN_EMPTY[i] && rest[1..] == OMIT_WHEN_EMPTY[i + 1..];
        var key := OMIT_WHEN_EMPTY[i];
        if key in fields && (fields[key] == Null || fields[key] == Str("")) {
          fields := fields - {key};
        }
      }
    }
  }

  /** Copies the caller's map entry by entry and normalises the copy; the original stays as it was. */
  method NormalizedComposeCopy(compose: ComposeMap) returns (copied: ComposeMap)
    ensures fresh(copied) && compose.fields == old(compose.fields)
    ensures copied.fields == Normalized(Go, NONE, compose.fields)
  {
    copied := new ComposeMap();
    var left := compose.fields.Keys;
    while left != {}
      invariant left <= compose.fields.Keys && compose.fields == old(compose.fields)
      invariant copied.fields.Keys == compose.fields.Keys - left
      invariant forall k :: k in copied.fields ==> copied.fields[k] == compose.fields[k]
    {
      var key :| key in left;
      copied.fields := copied.fields[key := compose.fields[key]];
      left := left - {key};
    }
    assert copied.fields == compose.fields;
    copied.NormalizeComposeMap();
  }

  // ----- the OS-dependent wire format

  function InitScriptList(m: Fields): Result<seq<Value>, ComposeError> {
    if "init_script" !in m then Ok([])
    else
      match m["init_script"]
      case Null => Ok([])
      case Str(s) => if s == "" then Ok([]) else Ok([Str(s)])
      case List(items) => Ok(items)
      case _ => Err(BadInitScript)
  }

  /** JavaScript: arrays as they are, any other truthy value as a single script. */
  function JsScripts(zero: string -> bool, m: Fields): seq<Value> {
    if "init_script" !in m then []
    else if m["init_script"].List? then m["init_script"].items
    else if Empty(Js, zero, m["init_script"]) then []
    else [m["init_script"]]
  }

  function WireFormat(m: Fields, scripts: seq<Value>, below: bool): Result<Fields, ComposeError> {
    if below then
      if |scripts| > 1 then Err(TooManyInitScripts)
      else
        var n := m["manifest_version" := Num("2")];
        Ok(if |scripts| == 0 then n - {"init_script"} else n["init_script" := scripts[0]])
    else
      Ok(m["manifest_version" := Str("3")]["init_script" := List(scripts)])
  }

  function ForOsImage(m: Fields, version: string): Result<Fields, ComposeError> {
    var n := Normalized(Go, NONE, m);
    match InitScriptList(n)
    case Err(e) => Err(e)
    case Ok(scripts) => WireFormat(n, scripts, OsImage.IsBelow(Go, version))
  }

  function JsForOsImage(zero: string -> bool, m: Fields, version: string): Result<Fields, ComposeError> {
    var n := Normalized(Js, zero, m);
    WireFormat(n, JsScripts(zero, n), OsImage.IsBelow(Js, version))
  }

  /** normalizedComposeForOSImage on mutable maps. */
  method NormalizedComposeForOSImage(compose: ComposeMap, version: string)
    returns (normalized: ComposeMap?, error: Option<ComposeError>)
    ensures compose.fields == old(compose.fields)
    ensures match ForOsImage(compose.fields, version)
            case Ok(m) => error == None && normalized != null && fresh(normalized) && normalized.fields == m
            case Err(e) => error == Some(e) && normalized == null
  {
    var copied := NormalizedComposeCopy(compose);
    var scripts := InitScriptList(copied.fields);
    if scripts.Err? {
      return null, Some(scripts.error);
    }
    var below := OsImage.Below060(Go, version);
    if below {
      copied.fields := copied.fields["manifest_version" := Num("2")];
      if |scripts.value| == 0 {
        copied.fields := copied.fields - {"init_script"};
      } else if |scripts.value| == 1 {
        copied.fields := copied.fields["init_script" := scripts.value[0]];
      } else {
        return null, Some(TooManyInitScripts);
      }
    } else {
      copied.fields := copied.fields["manifest_version" := Str("3")];
      copied.fields := copied.fields["init_script" := List(scripts.value)];
    }
    return copied, None;
  }

  // ----- what normalisation does, field by field

  lemma {:induction false} DropNilAt(m: Fields, keys: seq<string>, k: string)
    ensures k in DropNil(m, keys) <==> k in m && !(k in keys && m[k] == Null)
    ensures k in DropNil(m, keys) ==> DropNil(m, keys)[k] == m[k]
  {
    if keys != [] {
      DropNilAt(if keys[0] in m && m[keys[0]] == Null then m - {keys[0]} else m, keys[1..], k);
    }
  }

  lemma {:induction false} DropEmptyAt(c: Client, zero: string -> bool, m: Fields, keys: seq<string>, k: string)
    ensures k in DropEmpty(c, zero, m, keys) <==> k in m && !(k in keys && Empty(c, zero, m[k]))
    ensures k in DropEmpty(c, zero, m, keys) ==> DropEmpty(c, zero, m, keys)[k] == m[k]
  {
    if keys != [] {
      DropEmptyAt(c, zero, if keys[0] in m && Empty(c, zero, m[keys[0]]) then m - {keys[0]} else m, keys[1..], k);
    }
  }

  /** Why a present field is left out of the hashed document. */
  predicate Omitted(c: Client, zero: string -> bool, m: Fields, k: string)
    requires k in m
  {
    || (k == "docker_compose_file" && "runner" in m && m["runner"] == Str("bash"))
    || (k == "bash_script" && "runner" in m && m["runner"] == Str("docker-compose"))
    || (k in OMIT_WHEN_NIL && m[k] == Null)
    || (k in OMIT_WHEN_EMPTY && Empty(c, zero, m[k]))
  }

  /** The normalised document has exactly the fields that are not omitted, unchanged,
      plus tproxy_enabled, which defaults to gateway_enabled and then to true. */
  lemma NormalizedAt(c: Client, zero: string -> bool, m: Fields, k: string)
    ensures var n := Normalized(c, zero, m);
            if k in m then
              if Omitted(c, zero, m, k) then k !in n else k in n && n[k] == m[k]
            else if k == "tproxy_enabled" then
              k in n && n[k] == if "gateway_enabled" in m then m["gateway_enabled"] else Bool(true)
            else k !in n
  {
    var t := AddTproxy(DropScript(m));
    DropNilAt(t, OMIT_WHEN_NIL, k);
    DropEmptyAt(c, zero, DropNil(t, OMIT_WHEN_NIL), OMIT_WHEN_EMPTY, k);
  }

  lemma NormalizedIdempotent(c: Client, zero: string -> bool, m: Fields)
    ensures Normalized(c, zero, Normalized(c, zero, m)) == Normalized(c, zero, m)
  {
    var n := Normalized(c, zero, m);
    forall k ensures k in Normalized(c, zero, n) <==> k in n
             ensures k in n ==> Normalized(c, zero, n)[k] == n[k]
    {
      NormalizedAt(c, zero, m, k);
      NormalizedAt(c, zero, n, k);
      NormalizedAt(c, zero, m, "runner");
      NormalizedAt(c, zero, m, "tproxy_enabled");
    }
  }

  /** The canonical text of a normalised document identifies it. */
  lemma NormalizedTextIsCanonical(a: Fields, b: Fields)
    requires ValidValue(Dict(a)) && ValidValue(Dict(b))
    ensures var na, nb := Normalized(Go, NONE, a), Normalized(Go, NONE, b);
            Dump(Dict(na)) == Dump(Dict(nb)) <==> na == nb
  {
    NormalizedValid(Go, NONE, a);
    NormalizedValid(Go, NONE, b);
    DumpIsCanonical(Dict(Normalized(Go, NONE, a)), Dict(Normalized(Go, NONE, b)));
  }

  lemma NormalizedValid(c: Client, zero: string -> bool, m: Fields)
    requires ValidValue(Dict(m))
    ensures ValidValue(Dict(Normalized(c, zero, m)))
  {
    forall k | k in Normalized(c, zero, m) ensures ValidValue(Normalized(c, zero, m)[k]) {
      NormalizedAt(c, zero, m, k);
    }
  }

  // ----- the OS-dependent format is a fixed point

  /** The one script of a list is not itself a non-empty string, and the image takes a bare script. */
  predicate OddSingleScript(m: Fields, version: string) {
    OsImage.IsBelow(Go, version) && "init_script" in m && m["init_script"].List? &&
    |m["init_script"].items| == 1 &&
    !(m["init_script"].items[0].Str? && m["init_script"].items[0].s != "")
  }

  /** Normalising for an OS image twice is normalising once, for every document and
      version, except when a one-element list holds something other than a non-empty string. */
  lemma ForOsImageIdempotent(m: Fields, version: string)
    requires ForOsImage(m, version).Ok?
    ensures ForOsImage(ForOsImage(m, version).value, version) == ForOsImage(m, version)
            <==> !OddSingleScript(m, version)
  {
    var n, below := Normalized(Go, NONE, m), OsImage.IsBelow(Go, version);
    var r := ForOsImage(m, version).value;
    NormalizedAt(Go, NONE, m, "init_script");
    WireFieldsSurvive(Go, NONE, m, n, r);
    ReformatFixedPoint(n, below, r);
  }

  /** In JavaScript the one script of a list survives when it is neither a list nor falsy. */
  predicate JsOddSingleScript(zero: string -> bool, m: Fields, version: string) {
    OsImage.IsBelow(Js, version) && "init_script" in m && m["init_script"].List? &&
    |m["init_script"].items| == 1 &&
    (m["init_script"].items[0].List? || Empty(Js, zero, m["init_script"].items[0]))
  }

  lemma JsForOsImageIdempotent(zero: string -> bool, m: Fields, version: string)
    requires JsForOsImage(zero, m, version).Ok?
    ensures JsForOsImage(zero, JsForOsImage(zero, m, version).value, version) == JsForOsImage(zero, m, version)
            <==> !JsOddSingleScript(zero, m, version)
  {
    var n, below := Normalized(Js, zero, m), OsImage.IsBelow(Js, version);
    var r := JsForOsImage(zero, m, version).value;
    NormalizedAt(Js, zero, m, "init_script");
    WireFieldsSurvive(Js, zero, m, n, r);
    JsReformatFixedPoint(zero, n, below, r);
  }

  lemma JsReformatFixedPoint(zero: string -> bool, n: Fields, below: bool, r: Fields)
    requires WireFormat(n, JsScripts(zero, n), below) == Ok(r)
    ensures WireFormat(r, JsScripts(zero, r), below) == Ok(r) <==>
            !(below && "init_script" in n && n["init_script"].List? && |n["init_script"].items| == 1 &&
              (n["init_script"].items[0].List? || Empty(Js, zero, n["init_script"].items[0])))
  {
    var scripts := JsScripts(zero, n);
    WireFormatStable(n, scripts, below);
    if below && |scripts| == 1 {
      assert r["init_script"] == scripts[0];
      if scripts[0].List? || Empty(Js, zero, scripts[0]) {
        if WireFormat(r, JsScripts(zero, r), below).Ok? {
          var again := WireFormat(r, JsScripts(zero, r), below).value;
          assert "init_script" in again ==> again["init_script"] != scripts[0];
        }
      } else {
        assert JsScripts(zero, r) == scripts;
      }
    } else {
      assert JsScripts(zero, r) == scripts;
    }
  }

  /** A list holding true: the second pass is an error in Go and changes nothing in JavaScript. */
  lemma {:induction false} SecondPassDiffers(zero: string -> bool)
    ensures var m := map["init_script" := List([Bool(true)])];
            ForOsImage(m, "0.5.0").Ok? && JsForOsImage(zero, m, "0.5.0").Ok? &&
            ForOsImage(ForOsImage(m, "0.5.0").value, "0.5.0") != ForOsImage(m, "0.5.0") &&
            JsForOsImage(zero, JsForOsImage(zero, m, "0.5.0").value, "0.5.0") == JsForOsImage(zero, m, "0.5.0")
  {
    OldVersion();
    var m := map["init_script" := List([Bool(true)])];
    OddScriptFails(m, "0.5.0");
    NormalizedAt(Js, zero, m, "init_script");
    WireFieldsKept("init_script");
    JsForOsImageIdempotent(zero, m, "0.5.0");
  }

  /** A document whose normal form for 0.5.0 changes when it is normalised again. */
  lemma {:induction false} IdempotenceFails()
    ensures var m := map["init_script" := List([Null])];
            ForOsImage(m, "0.5.0").Ok? &&
            ForOsImage(ForOsImage(m, "0.5.0").value, "0.5.0") != ForOsImage(m, "0.5.0")
  {
    OldVersion();
    OddScriptFails(map["init_script" := List([Null])], "0.5.0");
  }

  lemma OddScriptFails(m: Fields, version: string)
    requires OddSingleScript(m, version)
    ensures ForOsImage(m, version).Ok? && ForOsImage(ForOsImage(m, version).value, version) != ForOsImage(m, version)
  {
    NormalizedAt(Go, NONE, m, "init_script");
    WireFieldsKept("init_script");
    ForOsImageIdempotent(m, version);
  }

  lemma OldVersion()
    ensures OsImage.IsBelow(Go, "0.5.0") && OsImage.IsBelow(Js, "0.5.0")
  {
    assert "0.5.0" == "0" + "." + ("5" + ".0");
    assert Decimal.Number("0") == 0 && Decimal.Number("5") == 5;
    OsImage.ScansTwoNumbers(Go, "0", "5", ".0");
    OsImage.ScansTwoNumbers(Js, "0", "5", ".0");
  }

  function Reformat(n: Fields, below: bool): Result<Fields, ComposeError> {
    match InitScriptList(n)
    case Err(e) => Err(e)
    case Ok(scripts) => WireFormat(n, scripts, below)
  }

  lemma ReformatFixedPoint(n: Fields, below: bool, r: Fields)
    requires Reformat(n, below) == Ok(r)
    ensures Reformat(r, below) == Ok(r) <==>
            !(below && "init_script" in n && n["init_script"].List? && |n["init_script"].items| == 1 &&
              !(n["init_script"].items[0].Str? && n["init_script"].items[0].s != ""))
  {
    var scripts := InitScriptList(n).value;
    WireFormatStable(n, scripts, below);
    if below && |scripts| == 1 {
      assert r["init_script"] == scripts[0];
      if !(scripts[0].Str? && scripts[0].s != "") && Reformat(r, below).Ok? {
        var again := Reformat(r, below).value;
        assert "init_script" in again ==> again["init_script"] != scripts[0];
      }
    }
  }

  lemma WireFormatStable(n: Fields, scripts: seq<Value>, below: bool)
    requires WireFormat(n, scripts, below).Ok?
    ensures WireFormat(WireFormat(n, scripts, below).value, scripts, below) == WireFormat(n, scripts, below)
  {
    var r := WireFormat(n, scripts, below).value;
    assert r["manifest_version" := r["manifest_version"]] == r;
    if "init_script" in r {
      assert r["init_script" := r["init_script"]] == r;
    } else {
      assert r - {"init_script"} == r;
    }
  }

  /** Writing manifest_version and init_script does not disturb normalisation. */
  lemma WireFieldsSurvive(c: Client, zero: string -> bool, m: Fields, n: Fields, r: Fields)
    requires n == Normalized(c, zero, m)
    requires forall k :: k !in {"manifest_version", "init_script"} ==>
               (k in r <==> k in n) && (k in r ==> r[k] == n[k])
    ensures Normalized(c, zero, r) == r
  {
    NormalizedAt(c, zero, m, "runner");
    NormalizedAt(c, zero, m, "tproxy_enabled");
    forall k ensures k in Normalized(c, zero, r) <==> k in r
             ensures k in r ==> Normalized(c, zero, r)[k] == r[k]
    {
      NormalizedAt(c, zero, m, k);
      NormalizedAt(c, zero, r, k);
      WireFieldsKept(k);
    }
  }

  /** The two rewritten fields are never omitted. */
  lemma WireFieldsKept(k: string)
    ensures k in {"manifest_version", "init_script"} ==>
              k !in OMIT_WHEN_NIL && k !in OMIT_WHEN_EMPTY && k !in {"docker_compose_file", "bash_script"}
  {
  }

  // ----- the Go and JavaScript clients

  /** init_script is something JavaScript accepts and Go rejects. */
  predicate ScriptRejectedByGo(m: Fields) {
    "init_script" in m && (m["init_script"].Bool? || m["init_script"].Num? || m["init_script"].Dict?)
  }

  /** An empty-droppable field holds false or a zero number, which only JavaScript drops. */
  predicate FalsyField(zero: string -> bool, m: Fields) {
    exists k :: k in OMIT_WHEN_EMPTY && k in m && Empty(Js, zero, m[k]) && !Empty(Go, zero, m[k])
  }

  predicate TooMany(m: Fields, version: string) {
    OsImage.IsBelow(Js, version) && "init_script" in m && m["init_script"].List? && |m["init_script"].items| > 1
  }

  lemma NormalizedAgree(zero: string -> bool, m: Fields)
    ensures Normalized(Go, NONE, m) == Normalized(Js, zero, m) <==> !FalsyField(zero, m)
  {
    var g, j := Normalized(Go, NONE, m), Normalized(Js, zero, m);
    if FalsyField(zero, m) {
      var k :| k in OMIT_WHEN_EMPTY && k in m && Empty(Js, zero, m[k]) && !Empty(Go, zero, m[k]);
      NormalizedAt(Go, NONE, m, k);
      NormalizedAt(Js, zero, m, k);
      assert k in g && k !in j;
    } else {
      forall k ensures k in g <==> k in j
               ensures k in g ==> g[k] == j[k]
      {
        NormalizedAt(Go, NONE, m, k);
        NormalizedAt(Js, zero, m, k);
      }
    }
  }

  /** The clients produce the same wire document, or fail alike, exactly when Go accepts
      the init_script, the version scanners agree, and no field is false or zero where
      that matters. */
  lemma ClientsNormalizeAlike(zero: string -> bool, m: Fields, version: string)
    ensures ForOsImage(m, version) == JsForOsImage(zero, m, version) <==>
            !ScriptRejectedByGo(m) &&
            ((TooMany(m, version) && OsImage.IsBelow(Go, version)) ||
             (!OsImage.Overflows(version) && !FalsyField(zero, m)))
  {
    var g, j := Normalized(Go, NONE, m), Normalized(Js, zero, m);
    NormalizedAt(Go, NONE, m, "init_script");
    NormalizedAt(Js, zero, m, "init_script");
    NormalizedAgree(zero, m);
    OsImage.ScannersAgree(version);
    if !ScriptRejectedByGo(m) {
      var scripts := JsScripts(zero, j);
      assert InitScriptList(g) == Ok(scripts);
      VersionsShow(g, j, scripts);
      if FalsyField(zero, m) {
        DifferenceSurvives(zero, m, scripts, version);
      }
    }
  }

  /** A false salt is hashed by Go and dropped by JavaScript, whatever the version. */
  lemma ClientsDiffer(zero: string -> bool, version: string)
    ensures ForOsImage(map["salt" := Bool(false)], version) != JsForOsImage(zero, map["salt" := Bool(false)], version)
  {
    var m := map["salt" := Bool(false)];
    assert OMIT_WHEN_EMPTY[3] == "salt" && "salt" in m;
    assert |"salt"| != |"init_script"|;
    ClientsNormalizeAlike(zero, m, version);
  }

  /** manifest_version tells the two wire formats apart. */
  lemma VersionsShow(a: Fields, b: Fields, scripts: seq<Value>)
    ensures WireFormat(a, scripts, true) != WireFormat(b, scripts, false)
  {
    if |scripts| <= 1 {
      assert WireFormat(a, scripts, true).value["manifest_version"] == Num("2");
    }
  }

  lemma DifferenceSurvives(zero: string -> bool, m: Fields, scripts: seq<Value>, version: string)
    requires FalsyField(zero, m)
    ensures var a := WireFormat(Normalized(Go, NONE, m), scripts, OsImage.IsBelow(Go, version));
            var b := WireFormat(Normalized(Js, zero, m), scripts, OsImage.IsBelow(Js, version));
            a.Ok? && b.Ok? ==> a != b
  {
    var k :| k in OMIT_WHEN_EMPTY && k in m && Empty(Js, zero, m[k]) && !Empty(Go, zero, m[k]);
    NormalizedAt(Go, NONE, m, k);
    NormalizedAt(Js, zero, m, k);
    assert k != "init_script" && k != "manifest_version" by { assert OMIT_WHEN_EMPTY[0] != "init_script"; }
    var a := WireFormat(Normalized(Go, NONE, m), scripts, OsImage.IsBelow(Go, version));
    var b := WireFormat(Normalized(Js, zero, m), scripts, OsImage.IsBelow(Js, version));
    if a.Ok? && b.Ok? {
      assert k in a.value && k !in b.value;
    }
  }
}
