/** preprocessAppCompose on objects with their key order, and the text each SDK hashes. */
module JsCompose {
  import opened Text
  import J = Json
  import opened KeyOrder
  import opened Canonical
  import opened JsCanonical
  import opened Compose
  import opened CrossClient
  import OsImage

  type Members = seq<J.Member>

  ghost predicate GoodTree(t: J.Tree) {
    IsObjectTree(t) && J.WellFormed(t)
  }

  /** An object of well-formed values. */
  ghost predicate Good(ms: Members) {
    EnumerationOrder(Keys(ms)) && forall m :: m in ms ==> GoodTree(m.value)
  }

  lemma GoodObject(ms: Members)
    ensures Good(ms) <==> GoodTree(J.Obj(ms))
  {
    assert GoodTree(J.Obj(ms)) ==> forall i :: 0 <= i < |ms| ==> ms[i] in ms;
    assert Good(ms) ==> forall i :: 0 <= i < |ms| ==> ms[i] in ms && GoodTree(ms[i].value);
  }

  // ----- operations on an object

  /** `delete obj[k]`. */
  function Delete(ms: Members, k: string): Members {
    if ms == [] then []
    else if ms[0].key == k then Delete(ms[1..], k)
    else [ms[0]] + Delete(ms[1..], k)
  }

  /** `obj[k] = t` for a key that is no array index: in place, or behind all others. */
  function Put(ms: Members, k: string, t: J.Tree): Members {
    if ms == [] then [J.Member(k, t)]
    else if ms[0].key == k then [J.Member(k, t)] + ms[1..]
    else [ms[0]] + Put(ms[1..], k, t)
  }

  /** `obj[k]`. */
  function At(ms: Members, k: string): Option<J.Tree> {
    if ms == [] then None
    else if ms[0].key == k then Some(ms[0].value)
    else At(ms[1..], k)
  }

  predicate IsFalsy(zero: string -> bool, t: J.Tree) {
    match t
    case Null => true
    case Str(s) => s == ""
    case Bool(b) => !b
    case Num(token) => zero(token)
    case _ => false
  }

  // ----- what they do to the map the object stands for

  lemma {:induction false} AtMap(ms: Members, k: string)
    ensures At(ms, k).Some? <==> k in FromMembers(ms)
    ensures At(ms, k).Some? ==> FromMembers(ms)[k] == FromTree(At(ms, k).value)
  {
    if ms != [] {
      AtMap(ms[1..], k);
    }
  }

  lemma {:induction false} DeleteMap(ms: Members, k: string)
    ensures FromMembers(Delete(ms, k)) == FromMembers(ms) - {k}
  {
    if ms != [] {
      DeleteMap(ms[1..], k);
      if ms[0].key != k {
        assert Delete(ms, k)[1..] == Delete(ms[1..], k);
      }
    }
  }

  lemma {:induction false} PutMap(ms: Members, k: string, t: J.Tree)
    ensures FromMembers(Put(ms, k, t)) == FromMembers(ms)[k := FromTree(t)]
  {
    if ms == [] {
      assert [J.Member(k, t)][1..] == [];
    } else {
      PutMap(ms[1..], k, t);
      assert Put(ms, k, t)[1..] == if ms[0].key == k then ms[1..] else Put(ms[1..], k, t);
    }
  }

  /** What may stand in front of an enumeration. */
  ghost predicate Leads(k: string, ks: seq<string>) {
    forall i :: 0 <= i < |ks| ==> k != ks[i] && (IsArrayIndex(ks[i]) ==> Before(JsEnumeration, k, ks[i]))
  }

  lemma EnumerationCons(k: string, ks: seq<string>)
    ensures EnumerationOrder([k] + ks) <==> Leads(k, ks) && EnumerationOrder(ks)
  {
    var all := [k] + ks;
    if EnumerationOrder(all) {
      forall i | 0 <= i < |ks| ensures k != ks[i] && (IsArrayIndex(ks[i]) ==> Before(JsEnumeration, k, ks[i])) {
        assert all[0] == k && all[i + 1] == ks[i];
      }
      forall i, j | 0 <= i < j < |ks|
        ensures ks[i] != ks[j] && (IsArrayIndex(ks[j]) ==> Before(JsEnumeration, ks[i], ks[j]))
      {
        assert all[i + 1] == ks[i] && all[j + 1] == ks[j];
      }
    }
  }

  lemma GoodCons(m: J.Member, ms: Members)
    ensures Good([m] + ms) <==> Good(ms) && Leads(m.key, Keys(ms)) && GoodTree(m.value)
  {
    assert Keys([m] + ms) == [m.key] + Keys(ms);
    EnumerationCons(m.key, Keys(ms));
    assert forall x :: x in [m] + ms <==> x == m || x in ms;
  }

  lemma GoodTail(ms: Members)
    requires Good(ms) && ms != []
    ensures Good(ms[1..]) && Leads(ms[0].key, Keys(ms[1..])) && GoodTree(ms[0].value)
  {
    assert ms == [ms[0]] + ms[1..];
    GoodCons(ms[0], ms[1..]);
  }

  lemma {:induction false} DeleteKeys(ms: Members, k: string)
    ensures forall i :: 0 <= i < |Delete(ms, k)| ==> Delete(ms, k)[i] in ms
  {
    if ms != [] {
      DeleteKeys(ms[1..], k);
      assert forall m :: m in ms[1..] ==> m in ms;
    }
  }

  lemma {:induction false} DeleteGood(ms: Members, k: string)
    requires Good(ms)
    ensures Good(Delete(ms, k))
  {
    if ms != [] {
      GoodTail(ms);
      DeleteGood(ms[1..], k);
      if ms[0].key != k {
        var rest := Delete(ms[1..], k);
        DeleteKeys(ms[1..], k);
        forall i | 0 <= i < |rest|
          ensures ms[0].key != Keys(rest)[i]
          ensures IsArrayIndex(Keys(rest)[i]) ==> Before(JsEnumeration, ms[0].key, Keys(rest)[i])
        {
          var j :| 0 <= j < |ms[1..]| && ms[1..][j] == rest[i];
          assert Keys(ms[1..])[j] == Keys(rest)[i];
        }
        GoodCons(ms[0], rest);
      }
    }
  }

  lemma {:induction false} PutKeys(ms: Members, k: string, t: J.Tree)
    ensures forall i :: 0 <= i < |Put(ms, k, t)| ==> Put(ms, k, t)[i].key == k || Put(ms, k, t)[i] in ms
  {
    if ms != [] {
      PutKeys(ms[1..], k, t);
      assert forall m :: m in ms[1..] ==> m in ms;
    }
  }

  lemma {:induction false} PutGood(ms: Members, k: string, t: J.Tree)
    requires Good(ms) && !IsArrayIndex(k) && GoodTree(t)
    ensures Good(Put(ms, k, t))
  {
    if ms == [] {
      GoodCons(J.Member(k, t), []);
      assert [J.Member(k, t)] + [] == [J.Member(k, t)];
    } else {
      GoodTail(ms);
      if ms[0].key == k {
        GoodCons(J.Member(k, t), ms[1..]);
      } else {
        var rest := Put(ms[1..], k, t);
        PutGood(ms[1..], k, t);
        PutKeys(ms[1..], k, t);
        forall i | 0 <= i < |rest|
          ensures ms[0].key != Keys(rest)[i]
          ensures IsArrayIndex(Keys(rest)[i]) ==> Before(JsEnumeration, ms[0].key, Keys(rest)[i])
        {
          if rest[i].key != k {
            var j :| 0 <= j < |ms[1..]| && ms[1..][j] == rest[i];
            assert Keys(ms[1..])[j] == Keys(rest)[i];
          }
        }
        GoodCons(ms[0], rest);
      }
    }
  }

  // ----- preprocessAppCompose

  function DeleteScript(ms: Members): Members {
    if At(ms, "runner") == Some(J.Str("bash")) then Delete(ms, "docker_compose_file")
    else if At(ms, "runner") == Some(J.Str("docker-compose")) then Delete(ms, "bash_script")
    else ms
  }

  function PutTproxy(ms: Members): Members {
    if At(ms, "tproxy_enabled").Some? then ms
    else Put(ms, "tproxy_enabled", At(ms, "gateway_enabled").GetOr(J.Bool(true)))
  }

  function DeleteNull(ms: Members, key: string): Members {
    if At(ms, key) == Some(J.Null) then Delete(ms, key) else ms
  }

  function DeleteFalsy(zero: string -> bool, ms: Members, key: string): Members {
    if At(ms, key).Some? && IsFalsy(zero, At(ms, key).value) then Delete(ms, key) else ms
  }

  function DeleteNulls(ms: Members, keys: seq<string>): Members
    decreases |keys|
  {
    if keys == [] then ms else DeleteNulls(DeleteNull(ms, keys[0]), keys[1..])
  }

  function DeleteAllFalsy(zero: string -> bool, ms: Members, keys: seq<string>): Members
    decreases |keys|
  {
    if keys == [] then ms else DeleteAllFalsy(zero, DeleteFalsy(zero, ms, keys[0]), keys[1..])
  }

  function NormalizedObject(zero: string -> bool, ms: Members): Members {
    DeleteAllFalsy(zero, DeleteNulls(PutTproxy(DeleteScript(ms)), OMIT_WHEN_NIL), OMIT_WHEN_EMPTY)
  }

  function ScriptsOf(zero: string -> bool, ms: Members): seq<J.Tree> {
    match At(ms, "init_script")
    case None => []
    case Some(Arr(items)) => items
    case Some(raw) => if IsFalsy(zero, raw) then [] else [raw]
  }

  function WireObject(ms: Members, scripts: seq<J.Tree>, below: bool): Result<Members, ComposeError> {
    if below then
      var n := Put(ms, "manifest_version", J.Num("2"));
      if |scripts| == 0 then Ok(Delete(n, "init_script"))
      else if |scripts| == 1 then Ok(Put(n, "init_script", scripts[0]))
      else Err(TooManyInitScripts)
    else
      Ok(Put(Put(ms, "manifest_version", J.Str("3")), "init_script", J.Arr(scripts)))
  }

  function Preprocessed(zero: string -> bool, ms: Members, version: Option<string>): Result<Members, ComposeError> {
    var n := NormalizedObject(zero, ms);
    match version
    case None => Ok(n)
    case Some(v) => WireObject(n, ScriptsOf(zero, n), OsImage.IsBelow(Js, v))
  }

  /** The assignments and deletions on a copy of the caller's object. */
  method PreprocessAppCompose(zero: string -> bool, dic: Members, osImageVersion: Option<string>)
    returns (r: Result<Members, ComposeError>)
    ensures r == Preprocessed(zero, dic, osImageVersion)
  {
    var obj := DeleteScript(dic);
    if At(obj, "tproxy_enabled").None? {
      var gateway := At(obj, "gateway_enabled");
      obj := Put(obj, "tproxy_enabled", if gateway.Some? then gateway.value else J.Bool(true));
    }
    ghost var before := obj;
    for i := 0 to |OMIT_WHEN_NIL|
      invariant DeleteNulls(obj, OMIT_WHEN_NIL[i..]) == DeleteNulls(before, OMIT_WHEN_NIL)
    {
      ghost var rest := OMIT_WHEN_NIL[i..];
      assert rest[0] == OMIT_WHEN_NIL[i] && rest[1..] == OMIT_WHEN_NIL[i + 1..];
      obj := DeleteNull(obj, OMIT_WHEN_NIL[i]);
    }
    before := obj;
    for i := 0 to |OMIT_WHEN_EMPTY|
      invariant DeleteAllFalsy(zero, obj, OMIT_WHEN_EMPTY[i..]) == DeleteAllFalsy(zero, before, OMIT_WHEN_EMPTY)
    {
      ghost var rest := OMIT_WHEN_EMPTY[i..];
      assert rest[0] == OMIT_WHEN_EMPTY[i] && rest[1..] == OMIT_WHEN_EMPTY[i + 1..];
      obj := DeleteFalsy(zero, obj, OMIT_WHEN_EMPTY[i]);
    }
    assert obj == NormalizedObject(zero, dic);
    if osImageVersion.None? {
      return Ok(obj);
    }
    var scripts := ScriptsOf(zero, obj);
    var below := OsImage.Below060(Js, osImageVersion.value);
    if below {
      obj := Put(obj, "manifest_version", J.Num("2"));
      if |scripts| == 0 {
        obj := Delete(obj, "init_script");
      } else if |scripts| == 1 {
        obj := Put(obj, "init_script", scripts[0]);
      } else {
        return Err(TooManyInitScripts);
      }
    } else {
      obj := Put(obj, "manifest_version", J.Str("3"));
      obj := Put(obj, "init_script", J.Arr(scripts));
    }
    return Ok(obj);
  }

  // ----- it is the normalisation of the map

  lemma {:induction false} GoodAt(ms: Members, k: string)
    requires Good(ms) && At(ms, k).Some?
    ensures GoodTree(At(ms, k).value)
  {
    GoodTail(ms);
    if ms[0].key != k {
      GoodAt(ms[1..], k);
    }
  }

  /** Trees and values agree on what is null or falsy. */
  lemma SameLeaves(zero: string -> bool, t: J.Tree)
    ensures t == J.Null <==> FromTree(t) == Null
    ensures IsFalsy(zero, t) <==> Empty(Js, zero, FromTree(t))
    ensures forall s :: t == J.Str(s) <==> FromTree(t) == Str(s)
  {
  }

  lemma LeafAt(zero: string -> bool, ms: Members, k: string)
    ensures At(ms, k) == Some(J.Null) <==> k in FromMembers(ms) && FromMembers(ms)[k] == Null
    ensures At(ms, k).Some? && IsFalsy(zero, At(ms, k).value) <==>
            k in FromMembers(ms) && Empty(Js, zero, FromMembers(ms)[k])
    ensures forall s :: At(ms, k) == Some(J.Str(s)) <==> k in FromMembers(ms) && FromMembers(ms)[k] == Str(s)
  {
    AtMap(ms, k);
    if At(ms, k).Some? {
      SameLeaves(zero, At(ms, k).value);
    }
  }

  lemma DeleteScriptMap(ms: Members)
    requires Good(ms)
    ensures Good(DeleteScript(ms)) && FromMembers(DeleteScript(ms)) == DropScript(FromMembers(ms))
  {
    LeafAt(NONE, ms, "runner");
    DeleteMap(ms, "docker_compose_file");
    DeleteMap(ms, "bash_script");
    DeleteGood(ms, "docker_compose_file");
    DeleteGood(ms, "bash_script");
  }

  lemma PutTproxyMap(ms: Members)
    requires Good(ms)
    ensures Good(PutTproxy(ms)) && FromMembers(PutTproxy(ms)) == AddTproxy(FromMembers(ms))
  {
    AtMap(ms, "tproxy_enabled");
    AtMap(ms, "gateway_enabled");
    if At(ms, "gateway_enabled").Some? {
      GoodAt(ms, "gateway_enabled");
    }
    var t := At(ms, "gateway_enabled").GetOr(J.Bool(true));
    PutMap(ms, "tproxy_enabled", t);
    PutGood(ms, "tproxy_enabled", t);
  }

  lemma {:induction false} DeleteNullsMap(ms: Members, keys: seq<string>)
    requires Good(ms)
    ensures Good(DeleteNulls(ms, keys)) && FromMembers(DeleteNulls(ms, keys)) == DropNil(FromMembers(ms), keys)
    decreases |keys|
  {
    if keys != [] {
      LeafAt(NONE, ms, keys[0]);
      DeleteMap(ms, keys[0]);
      DeleteGood(ms, keys[0]);
      DeleteNullsMap(DeleteNull(ms, keys[0]), keys[1..]);
    }
  }

  lemma {:induction false} DeleteAllFalsyMap(zero: string -> bool, ms: Members, keys: seq<string>)
    requires Good(ms)
    ensures Good(DeleteAllFalsy(zero, ms, keys))
    ensures FromMembers(DeleteAllFalsy(zero, ms, keys)) == DropEmpty(Js, zero, FromMembers(ms), keys)
    decreases |keys|
  {
    if keys != [] {
      LeafAt(zero, ms, keys[0]);
      DeleteMap(ms, keys[0]);
      DeleteGood(ms, keys[0]);
      DeleteAllFalsyMap(zero, DeleteFalsy(zero, ms, keys[0]), keys[1..]);
    }
  }

  lemma NormalizedObjectMap(zero: string -> bool, ms: Members)
    requires Good(ms)
    ensures Good(NormalizedObject(zero, ms))
    ensures FromMembers(NormalizedObject(zero, ms)) == Normalized(Js, zero, FromMembers(ms))
  {
    DeleteScriptMap(ms);
    PutTproxyMap(DeleteScript(ms));
    var t := PutTproxy(DeleteScript(ms));
    DeleteNullsMap(t, OMIT_WHEN_NIL);
    DeleteAllFalsyMap(zero, DeleteNulls(t, OMIT_WHEN_NIL), OMIT_WHEN_EMPTY);
  }

  function FromTrees(ts: seq<J.Tree>): (vs: seq<Value>)
    ensures |vs| == |ts| && forall i :: 0 <= i < |ts| ==> vs[i] == FromTree(ts[i])
  {
    seq(|ts|, i requires 0 <= i < |ts| => FromTree(ts[i]))
  }

  lemma ScriptsMap(zero: string -> bool, ms: Members)
    requires Good(ms)
    ensures FromTrees(ScriptsOf(zero, ms)) == JsScripts(zero, FromMembers(ms))
    ensures forall i :: 0 <= i < |ScriptsOf(zero, ms)| ==> GoodTree(ScriptsOf(zero, ms)[i])
  {
    AtMap(ms, "init_script");
    if At(ms, "init_script").Some? {
      var raw := At(ms, "init_script").value;
      GoodAt(ms, "init_script");
      SameLeaves(zero, raw);
      if raw.Arr? {
        assert FromTrees(raw.items) == FromTree(raw).items;
      }
    }
  }

  lemma WireObjectMap(ms: Members, scripts: seq<J.Tree>, below: bool)
    requires Good(ms) && forall i :: 0 <= i < |scripts| ==> GoodTree(scripts[i])
    ensures match WireObject(ms, scripts, below)
            case Ok(r) => Good(r) && WireFormat(FromMembers(ms), FromTrees(scripts), below) == Ok(FromMembers(r))
            case Err(e) => WireFormat(FromMembers(ms), FromTrees(scripts), below) == Err(e)
  {
    var version := if below then J.Num("2") else J.Str("3");
    PutMap(ms, "manifest_version", version);
    PutGood(ms, "manifest_version", version);
    var n := Put(ms, "manifest_version", version);
    if !below {
      assert FromTree(J.Arr(scripts)) == List(FromTrees(scripts));
      PutMap(n, "init_script", J.Arr(scripts));
      PutGood(n, "init_script", J.Arr(scripts));
    } else if |scripts| == 0 {
      DeleteMap(n, "init_script");
      DeleteGood(n, "init_script");
    } else if |scripts| == 1 {
      PutMap(n, "init_script", scripts[0]);
      PutGood(n, "init_script", scripts[0]);
    }
  }

  /** The normalised map, with or without the wire format of an OS image. */
  function Normal(c: Client, zero: string -> bool, m: Fields, version: Option<string>): Result<Fields, ComposeError> {
    match version
    case None => Ok(Normalized(c, zero, m))
    case Some(v) => if c.Go? then ForOsImage(m, v) else JsForOsImage(zero, m, v)
  }

  /** The object that JavaScript works on always stands for the map that the model
      normalises; its key order stays an enumeration order. */
  lemma PreprocessedMap(zero: string -> bool, ms: Members, version: Option<string>)
    requires Good(ms)
    ensures match Preprocessed(zero, ms, version)
            case Ok(r) => Good(r) && Normal(Js, zero, FromMembers(ms), version) == Ok(FromMembers(r))
            case Err(e) => Normal(Js, zero, FromMembers(ms), version) == Err(e)
  {
    NormalizedObjectMap(zero, ms);
    var n := NormalizedObject(zero, ms);
    if version.Some? {
      ScriptsMap(zero, n);
      WireObjectMap(n, ScriptsOf(zero, n), OsImage.IsBelow(Js, version.value));
    }
  }

  // ----- the texts that are hashed

  ghost function JsText(zero: string -> bool, ms: Members, version: Option<string>): Result<string, ComposeError> {
    match Preprocessed(zero, ms, version)
    case Ok(r) => Ok(JsDump(J.Obj(r)))
    case Err(e) => Err(e)
  }

  ghost function GoText(m: Fields, version: Option<string>): Result<string, ComposeError> {
    match Normal(Go, NONE, m, version)
    case Ok(r) => Ok(Dump(Dict(r)))
    case Err(e) => Err(e)
  }

  /** What a JavaScript text says: two documents have one text exactly when their normal
      forms stand alike, and for order-free normal forms exactly when they show one value. */
  lemma JsTextsExactly(zero: string -> bool, a: Members, b: Members, version: Option<string>)
    requires Good(a) && Preprocessed(zero, a, version).Ok? && Good(b) && Preprocessed(zero, b, version).Ok?
    ensures var na, nb := Preprocessed(zero, a, version).value, Preprocessed(zero, b, version).value;
            (JsText(zero, a, version) == JsText(zero, b, version) <==> SameText(J.Obj(na), J.Obj(nb))) &&
            (OrderFree(Dict(FromMembers(na))) && OrderFree(Dict(FromMembers(nb))) ==>
               (JsText(zero, a, version) == JsText(zero, b, version) <==>
                Shown(Dict(FromMembers(na))) == Shown(Dict(FromMembers(nb)))))
  {
    PreprocessedMap(zero, a, version);
    PreprocessedMap(zero, b, version);
    var na, nb := Preprocessed(zero, a, version).value, Preprocessed(zero, b, version).value;
    GoodObject(na);
    GoodObject(nb);
    JsDumpExactly(J.Obj(na), J.Obj(nb));
    if OrderFree(Dict(FromMembers(na))) && OrderFree(Dict(FromMembers(nb))) {
      OrderFreeTexts(J.Obj(na), J.Obj(nb));
    }
  }

  /** A value of the normalised document: a constant, or taken from the given one. */
  predicate Derived(m: Fields, v: Value) {
    || v == Bool(true) || v == Num("2") || v == Str("3") || v == List([])
    || exists k :: k in m && (v == m[k] || v == List([m[k]]) || (m[k].List? && v in m[k].items))
  }

  lemma DerivedAt(m: Fields, k: string)
    requires k in m
    ensures Derived(m, m[k]) && Derived(m, List([m[k]]))
    ensures m[k].List? ==> forall i :: 0 <= i < |m[k].items| ==> Derived(m, m[k].items[i])
  {
  }

  predicate IsAdded(k: string) {
    k == "tproxy_enabled" || k == "manifest_version" || k == "init_script"
  }

  lemma NormalizedDerived(c: Client, zero: string -> bool, m: Fields, k: string)
    requires k in Normalized(c, zero, m)
    ensures (k in m || IsAdded(k)) && Derived(m, Normalized(c, zero, m)[k])
  {
    NormalizedAt(c, zero, m, k);
    if k in m {
      DerivedAt(m, k);
    } else if "gateway_enabled" in m {
      DerivedAt(m, "gateway_enabled");
    }
  }

  lemma WireDerived(c: Client, zero: string -> bool, m: Fields, scripts: seq<Value>, below: bool, k: string)
    requires var n := Normalized(c, zero, m);
             scripts == JsScripts(zero, n) || InitScriptList(n) == Ok(scripts)
    requires var r := WireFormat(Normalized(c, zero, m), scripts, below); r.Ok? && k in r.value
    ensures (k in m || IsAdded(k)) && Derived(m, WireFormat(Normalized(c, zero, m), scripts, below).value[k])
  {
    var n := Normalized(c, zero, m);
    var r := WireFormat(n, scripts, below).value;
    NormalizedAt(c, zero, m, "init_script");
    if "init_script" in m {
      DerivedAt(m, "init_script");
    }
    if k == "init_script" {
      assert below ==> |scripts| == 1 && r[k] == scripts[0];
      assert !below ==> r[k] == List(scripts);
    } else if k != "manifest_version" {
      NormalizedDerived(c, zero, m, k);
    }
  }

  lemma NormalDerived(c: Client, zero: string -> bool, m: Fields, version: Option<string>, k: string)
    requires Normal(c, zero, m, version).Ok? && k in Normal(c, zero, m, version).value && (c.Go? ==> zero == NONE)
    ensures (k in m || IsAdded(k)) && Derived(m, Normal(c, zero, m, version).value[k])
  {
    match version
    case None => NormalizedDerived(c, zero, m, k);
    case Some(v) =>
      var n := Normalized(c, zero, m);
      var scripts := if c.Go? then InitScriptList(n).value else JsScripts(zero, n);
      WireDerived(c, zero, m, scripts, OsImage.IsBelow(c, v), k);
  }

  lemma NormalValid(c: Client, zero: string -> bool, m: Fields, version: Option<string>)
    requires Normal(c, zero, m, version).Ok? && ValidValue(Dict(m)) && (c.Go? ==> zero == NONE)
    ensures ValidValue(Dict(Normal(c, zero, m, version).value))
  {
    var r := Normal(c, zero, m, version).value;
    forall k | k in r ensures ValidValue(r[k]) {
      NormalDerived(c, zero, m, version, k);
    }
  }

  /** Where the normal forms differ, it shows: in a field only Go has or in the version. */
  lemma DifferenceShows(zero: string -> bool, m: Fields, version: Option<string>)
    requires Normal(Go, NONE, m, version).Ok? && Normal(Js, zero, m, version).Ok?
    requires Normal(Go, NONE, m, version) != Normal(Js, zero, m, version)
    ensures Dict(Normal(Go, NONE, m, version).value) != Shown(Dict(Normal(Js, zero, m, version).value))
  {
    var g, j := Normal(Go, NONE, m, version).value, Normal(Js, zero, m, version).value;
    NormalizedAgree(zero, m);
    if FalsyField(zero, m) {
      var k := FalsyKey(zero, m);
      assert k in g && k !in j;
      assert k !in Shown(Dict(j)).fields;
    } else {
      VersionShows(zero, m, version.value);
    }
  }

  lemma FalsyKey(zero: string -> bool, m: Fields) returns (k: string)
    requires FalsyField(zero, m)
    ensures k in Normalized(Go, NONE, m) && k !in Normalized(Js, zero, m)
    ensures k != "init_script" && k != "manifest_version"
  {
    k :| k in OMIT_WHEN_EMPTY && k in m && Empty(Js, zero, m[k]) && !Empty(Go, zero, m[k]);
    NormalizedAt(Go, NONE, m, k);
    NormalizedAt(Js, zero, m, k);
    WireFieldsKept(k);
  }

  lemma VersionShows(zero: string -> bool, m: Fields, version: string)
    requires ForOsImage(m, version).Ok? && JsForOsImage(zero, m, version).Ok? && !FalsyField(zero, m)
    requires ForOsImage(m, version) != JsForOsImage(zero, m, version)
    ensures Dict(ForOsImage(m, version).value) != Shown(Dict(JsForOsImage(zero, m, version).value))
  {
    var g, j := ForOsImage(m, version).value, JsForOsImage(zero, m, version).value;
    ClientsNormalizeAlike(zero, m, version);
    NormalizedAt(Go, NONE, m, "init_script");
    OsImage.ScannersAgree(version);
    assert OsImage.IsBelow(Go, version) != OsImage.IsBelow(Js, version);
    var k := "manifest_version";
    assert k in g && k in j && g[k] != j[k] && Shown(j[k]) == j[k];
    assert k != PROTO by { assert k[0] != PROTO[0]; }
    assert Shown(Dict(j)).fields[k] == j[k];
  }

  /** The promise of getComposeHash, exactly: for every document and OS image it hashes the
      text that the backend's rules give, or fails like them, if and only if the two normal
      forms are one map and the object JavaScript ends up with is alike for both. */
  lemma TextsAgree(zero: string -> bool, ms: Members, version: Option<string>)
    requires Good(ms)
    ensures var m, p := FromMembers(ms), Preprocessed(zero, ms, version);
            JsText(zero, ms, version) == GoText(m, version) <==>
            Normal(Go, NONE, m, version) == Normal(Js, zero, m, version) && (p.Ok? ==> TreeAlike(J.Obj(p.value)))
  {
    var m, p := FromMembers(ms), Preprocessed(zero, ms, version);
    PreprocessedMap(zero, ms, version);
    if p.Ok? && Normal(Go, NONE, m, version).Ok? {
      var t := J.Obj(p.value);
      GoodObject(ms);
      GoodObject(p.value);
      ValidTree(J.Obj(ms));
      ClientsDumpAlike(t);
      if Normal(Go, NONE, m, version) != Normal(Js, zero, m, version) {
        NormalValid(Go, NONE, m, version);
        ReadInvertsDump(Dict(Normal(Go, NONE, m, version).value));
        ReadInvertsJsDump(t);
        DifferenceShows(zero, m, version);
      }
    }
  }

  /** What of the document itself decides whether the normal forms are one map. */
  predicate NormalizedAlike(zero: string -> bool, m: Fields, version: Option<string>) {
    match version
    case None => !FalsyField(zero, m)
    case Some(v) =>
      !ScriptRejectedByGo(m) &&
      ((TooMany(m, v) && OsImage.IsBelow(Go, v)) || (!OsImage.Overflows(v) && !FalsyField(zero, m)))
  }

  /** For documents with plain keys, in any insertion order, only the normal forms matter. */
  lemma PlainTextsAgree(zero: string -> bool, ms: Members, version: Option<string>)
    requires Good(ms) && PlainKeys(Dict(FromMembers(ms)))
    ensures JsText(zero, ms, version) == GoText(FromMembers(ms), version)
            <==> NormalizedAlike(zero, FromMembers(ms), version)
  {
    var m, p := FromMembers(ms), Preprocessed(zero, ms, version);
    TextsAgree(zero, ms, version);
    if version.Some? {
      ClientsNormalizeAlike(zero, m, version.value);
    } else {
      NormalizedAgree(zero, m);
    }
    if p.Ok? {
      PreprocessedMap(zero, ms, version);
      GoodObject(p.value);
      NormalPlain(zero, m, version);
      PlainKeysAlike(J.Obj(p.value));
    }
  }

  lemma NormalPlain(zero: string -> bool, m: Fields, version: Option<string>)
    requires PlainKeys(Dict(m)) && Normal(Js, zero, m, version).Ok?
    ensures PlainKeys(Dict(Normal(Js, zero, m, version).value))
  {
    var r := Normal(Js, zero, m, version).value;
    forall k | k in r ensures PlainKey(k) && k != PROTO && k != CONSTRUCTOR && PlainKeys(r[k]) {
      NormalDerived(Js, zero, m, version, k);
      if k !in m {
        AddedKeysPlain(k);
      }
    }
  }

  lemma AddedKeysPlain(k: string)
    requires IsAdded(k)
    ensures PlainKey(k) && k != PROTO && k != CONSTRUCTOR
  {
    assert k[0] != PROTO[0] && k[0] != CONSTRUCTOR[0];
  }
}
