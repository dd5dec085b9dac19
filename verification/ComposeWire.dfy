/** What the hashed document holds, field by field, in terms of the given one and the OS image. */
module ComposeWire {
  import opened Text
  import opened Canonical
  import opened Compose
  import OsImage

  /** The given script, or null. */
  function Script(m: Fields): Value {
    if "init_script" in m then m["init_script"] else Null
  }

  predicate IsNoText(v: Value) {
    v == Null || v == Str("")
  }

  /** What Go's normalisation for an OS image makes of the two fields it writes, and when it fails. */
  lemma GoWireFields(m: Fields, version: string)
    ensures var s, below := Script(m), OsImage.IsBelow(Go, version);
            match ForOsImage(m, version)
            case Err(BadInitScript) => s.Bool? || s.Num? || s.Dict?
            case Err(TooManyInitScripts) => below && s.List? && |s.items| > 1
            case Ok(r) =>
              && (s.Null? || s.Str? || (s.List? && (below ==> |s.items| <= 1)))
              && "manifest_version" in r && r["manifest_version"] == (if below then Num("2") else Str("3"))
              && ("init_script" in r <==> !below || !(IsNoText(s) || s == List([])))
              && (below && "init_script" in r ==> r["init_script"] == if s.List? then s.items[0] else s)
              && (!below ==> r["init_script"] == if s.List? then s else if IsNoText(s) then List([]) else List([s]))
  {
    NormalizedAt(Go, NONE, m, "init_script");
    WireFieldsKept("init_script");
  }

  /** The same for JavaScript, where every value that is not a list is a script unless it is falsy. */
  lemma JsWireFields(zero: string -> bool, m: Fields, version: string)
    ensures var s, below := Script(m), OsImage.IsBelow(Js, version);
            match JsForOsImage(zero, m, version)
            case Err(e) => e == TooManyInitScripts && below && s.List? && |s.items| > 1
            case Ok(r) =>
              && (s.List? && below ==> |s.items| <= 1)
              && "manifest_version" in r && r["manifest_version"] == (if below then Num("2") else Str("3"))
              && ("init_script" in r <==> !below || !(IsFalsy(zero, s) || s == List([])))
              && (below && "init_script" in r ==> r["init_script"] == if s.List? then s.items[0] else s)
              && (!below ==>
                    r["init_script"] == if s.List? then s else if IsFalsy(zero, s) then List([]) else List([s]))
  {
    NormalizedAt(Js, zero, m, "init_script");
    WireFieldsKept("init_script");
  }

  /** What JavaScript takes for false: null, the empty string, false and zero. */
  predicate IsFalsy(zero: string -> bool, v: Value) {
    v == Null || v == Str("") || v == Bool(false) || (v.Num? && zero(v.token))
  }

  function Field(m: Fields, k: string): Option<Value> {
    if k in m then Some(m[k]) else None
  }

  /** The fields the backend leaves out, by name. */
  predicate LeftOut(c: Client, zero: string -> bool, m: Fields, k: string)
    requires k in m
  {
    || (k == "docker_compose_file" && Field(m, "runner") == Some(Str("bash")))
    || (k == "bash_script" && Field(m, "runner") == Some(Str("docker-compose")))
    || (k in {"event_log_version", "key_provider", "port_policy", "requirements", "snapshotter", "storage_discard",
              "swap_size", "verity_volumes"} && m[k] == Null)
    || (k in {"default_gateway_domain", "key_provider_id", "pre_launch_script", "salt"} &&
        (if c.Go? then IsNoText(m[k]) else IsFalsy(zero, m[k])))
  }

  lemma OmittedByName(c: Client, zero: string -> bool, m: Fields, k: string)
    requires k in m
    ensures Omitted(c, zero, m, k) <==> LeftOut(c, zero, m, k)
  {
    assert Empty(c, zero, m[k]) <==> if c.Go? then IsNoText(m[k]) else IsFalsy(zero, m[k]);
  }

  /** Every other field is left out, kept as given, or the defaulted tproxy_enabled, with or
      without an OS image, in both clients. */
  lemma OtherFields(c: Client, zero: string -> bool, m: Fields, version: Option<string>, k: string)
    requires k != "manifest_version" && k != "init_script" && (c.Go? ==> zero == NONE)
    ensures var r := match version
                     case None => Ok(Normalized(c, zero, m))
                     case Some(v) => if c.Go? then ForOsImage(m, v) else JsForOsImage(zero, m, v);
            r.Ok? ==>
              Field(r.value, k) ==
              if k in m then if LeftOut(c, zero, m, k) then None else Some(m[k])
              else if k != "tproxy_enabled" then None
              else if "gateway_enabled" in m then Some(m["gateway_enabled"]) else Some(Bool(true))
  {
    NormalizedAt(c, zero, m, k);
    if k in m {
      OmittedByName(c, zero, m, k);
    }
  }

  /** Without an OS image the two fields are hashed as given. */
  lemma GivenFields(c: Client, zero: string -> bool, m: Fields, k: string)
    requires k == "manifest_version" || k == "init_script"
    ensures Field(Normalized(c, zero, m), k) == Field(m, k)
  {
    NormalizedAt(c, zero, m, k);
    WireFieldsKept(k);
  }
}
