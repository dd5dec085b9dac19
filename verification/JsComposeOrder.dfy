/** The key order of the object that JavaScript hashes: kept keys as given, new ones behind them. */
module JsComposeOrder {
  import opened Text
  import J = Json
  import opened KeyOrder
  import opened Canonical
  import opened JsCanonical
  import opened Compose
  import opened JsCompose
  import OsImage

  /** The keys of a sequence that lie in a set, in order. */
  function Kept(ks: seq<string>, s: set<string>): seq<string> {
    if ks == [] then []
    else (if ks[0] in s then [ks[0]] else []) + Kept(ks[1..], s)
  }

  lemma {:induction false} KeptIn(ks: seq<string>, s: set<string>, t: set<string>)
    requires forall k :: k in ks ==> (k in s <==> k in t)
    ensures Kept(ks, s) == Kept(ks, t)
  {
    if ks != [] {
      assert ks[0] in ks && forall k :: k in ks[1..] ==> k in ks;
      KeptIn(ks[1..], s, t);
    }
  }

  lemma {:induction false} KeptAll(ks: seq<string>, s: set<string>)
    requires forall k :: k in ks ==> k in s
    ensures Kept(ks, s) == ks
  {
    if ks != [] {
      assert ks[0] in ks && forall k :: k in ks[1..] ==> k in ks;
      KeptAll(ks[1..], s);
      assert [ks[0]] + ks[1..] == ks;
    }
  }

  lemma {:induction false} KeptTwice(ks: seq<string>, s: set<string>, t: set<string>)
    ensures Kept(Kept(ks, s), t) == Kept(ks, s * t)
  {
    if ks != [] {
      KeptTwice(ks[1..], s, t);
      if ks[0] in s {
        assert ([ks[0]] + Kept(ks[1..], s))[1..] == Kept(ks[1..], s);
      } else {
        assert [] + Kept(ks[1..], s) == Kept(ks[1..], s);
        assert [] + Kept(ks[1..], s * t) == Kept(ks[1..], s * t);
      }
    }
  }

  lemma {:induction false} KeptBoth(a: seq<string>, b: seq<string>, s: set<string>)
    ensures Kept(a + b, s) == Kept(a, s) + Kept(b, s)
  {
    if a == [] {
      assert a + b == b;
    } else {
      KeptBoth(a[1..], b, s);
      assert (a + b)[1..] == a[1..] + b;
      Associate(if a[0] in s then [a[0]] else [], Kept(a[1..], s), Kept(b, s));
    }
  }

  // ----- the two operations

  lemma KeysCons(m: J.Member, ms: Members)
    ensures Keys([m] + ms) == [m.key] + Keys(ms)
  {
  }

  lemma SetOfKeys(ms: Members, k: string)
    ensures k in Keys(ms) <==> k in FromMembers(ms)
    decreases |ms|
  {
    if ms != [] {
      SetOfKeys(ms[1..], k);
      KeysCons(ms[0], ms[1..]);
      assert ms == [ms[0]] + ms[1..];
    }
  }

  /** An assignment to a key that is there keeps the order; any other goes behind all. */
  lemma {:induction false} PutKeepsOrder(ms: Members, k: string, t: J.Tree)
    ensures Keys(Put(ms, k, t)) == if k in Keys(ms) then Keys(ms) else Keys(ms) + [k]
  {
    if ms == [] {
      assert Keys([J.Member(k, t)]) == [k] && Keys(ms) == [];
    } else {
      assert ms == [ms[0]] + ms[1..];
      KeysCons(ms[0], ms[1..]);
      if ms[0].key == k {
        KeysCons(J.Member(k, t), ms[1..]);
      } else {
        PutKeepsOrder(ms[1..], k, t);
        KeysCons(ms[0], Put(ms[1..], k, t));
        Associate([ms[0].key], Keys(ms[1..]), [k]);
      }
    }
  }

  /** A deletion takes the key out and keeps the order of the others. */
  lemma {:induction false} DeleteKeepsOrder(ms: Members, k: string)
    ensures Keys(Delete(ms, k)) == Kept(Keys(ms), FromMembers(Delete(ms, k)).Keys)
  {
    DeleteFilters(ms, k);
    DeleteMap(ms, k);
    forall j | j in Keys(ms)
      ensures j in FromMembers(Delete(ms, k)).Keys <==> j in FromMembers(ms).Keys - {k}
    {
    }
    KeptIn(Keys(ms), FromMembers(Delete(ms, k)).Keys, FromMembers(ms).Keys - {k});
  }

  lemma {:induction false} DeleteFilters(ms: Members, k: string)
    ensures Keys(Delete(ms, k)) == Kept(Keys(ms), FromMembers(ms).Keys - {k})
  {
    if ms != [] {
      var rest := ms[1..];
      assert ms == [ms[0]] + rest;
      KeysCons(ms[0], rest);
      assert ([ms[0].key] + Keys(rest))[1..] == Keys(rest);
      DeleteFilters(rest, k);
      forall j | j in Keys(rest) ensures j in FromMembers(ms).Keys - {k} <==> j in FromMembers(rest).Keys - {k} {
        SetOfKeys(rest, j);
      }
      KeptIn(Keys(rest), FromMembers(ms).Keys - {k}, FromMembers(rest).Keys - {k});
      var kept := Kept(Keys(rest), FromMembers(ms).Keys - {k});
      if ms[0].key == k {
        assert [] + kept == kept;
      } else {
        KeysCons(ms[0], Delete(rest, k));
      }
    }
  }

  // ----- from the given object to the hashed one

  /** The keys still there in the given order, and `added` behind them. */
  ghost predicate Follows(given: Members, ms: Members, added: seq<string>) {
    && Keys(ms) == Kept(Keys(given), FromMembers(ms).Keys) + added
    && forall k :: k in added ==> k !in Keys(given) && k in FromMembers(ms)
  }

  lemma FollowsItself(ms: Members)
    ensures Follows(ms, ms, [])
  {
    forall k | k in Keys(ms) ensures k in FromMembers(ms).Keys {
      SetOfKeys(ms, k);
    }
    KeptAll(Keys(ms), FromMembers(ms).Keys);
    assert Keys(ms) + [] == Keys(ms);
  }

  lemma FollowsDelete(given: Members, ms: Members, added: seq<string>, k: string)
    requires Follows(given, ms, added) && k !in added
    ensures Follows(given, Delete(ms, k), added)
  {
    var s, t := FromMembers(ms).Keys, FromMembers(Delete(ms, k)).Keys;
    DeleteMap(ms, k);
    DeleteKeepsOrder(ms, k);
    KeptBoth(Kept(Keys(given), s), added, t);
    KeptTwice(Keys(given), s, t);
    assert s * t == t;
    KeptAll(added, t);
  }

  lemma FollowsPut(given: Members, ms: Members, added: seq<string>, k: string, t: J.Tree)
    requires Follows(given, ms, added) && (k in Keys(given) ==> k in FromMembers(ms))
    ensures Follows(given, Put(ms, k, t), if k in FromMembers(ms) then added else added + [k])
  {
    var s, u := FromMembers(ms).Keys, FromMembers(Put(ms, k, t)).Keys;
    PutMap(ms, k, t);
    PutKeepsOrder(ms, k, t);
    SetOfKeys(ms, k);
    KeptIn(Keys(given), s, u);
    Associate(Kept(Keys(given), s), added, [k]);
  }

  lemma {:induction false} FollowsNulls(given: Members, ms: Members, added: seq<string>, keys: seq<string>)
    requires Follows(given, ms, added) && forall k :: k in keys ==> k !in added
    ensures Follows(given, DeleteNulls(ms, keys), added)
    decreases |keys|
  {
    if keys != [] {
      assert keys[0] in keys && forall k :: k in keys[1..] ==> k in keys;
      FollowsDelete(given, ms, added, keys[0]);
      FollowsNulls(given, DeleteNull(ms, keys[0]), added, keys[1..]);
    }
  }

  lemma {:induction false} FollowsFalsy(given: Members, zero: string -> bool, ms: Members, added: seq<string>,
                                        keys: seq<string>)
    requires Follows(given, ms, added) && forall k :: k in keys ==> k !in added
    ensures Follows(given, DeleteAllFalsy(zero, ms, keys), added)
    decreases |keys|
  {
    if keys != [] {
      assert keys[0] in keys && forall k :: k in keys[1..] ==> k in keys;
      FollowsDelete(given, ms, added, keys[0]);
      FollowsFalsy(given, zero, DeleteFalsy(zero, ms, keys[0]), added, keys[1..]);
    }
  }

  function NewKey(ms: Members, k: string): seq<string> {
    if k in FromMembers(ms) then [] else [k]
  }

  lemma FollowsTproxy(ms: Members)
    ensures Follows(ms, PutTproxy(DeleteScript(ms)), NewKey(ms, "tproxy_enabled"))
  {
    var d := DeleteScript(ms);
    FollowsItself(ms);
    FollowsDelete(ms, ms, [], "docker_compose_file");
    FollowsDelete(ms, ms, [], "bash_script");
    DeleteMap(ms, "docker_compose_file");
    DeleteMap(ms, "bash_script");
    assert "tproxy_enabled" in FromMembers(d) <==> "tproxy_enabled" in FromMembers(ms) by {
      assert "tproxy_enabled"[0] != "docker_compose_file"[0] && "tproxy_enabled"[0] != "bash_script"[0];
    }
    AtMap(d, "tproxy_enabled");
    SetOfKeys(ms, "tproxy_enabled");
    FollowsPut(ms, d, [], "tproxy_enabled", At(d, "gateway_enabled").GetOr(J.Bool(true)));
    assert [] + ["tproxy_enabled"] == ["tproxy_enabled"];
  }

  lemma TproxyNotOmitted()
    ensures "tproxy_enabled" !in OMIT_WHEN_NIL && "tproxy_enabled" !in OMIT_WHEN_EMPTY
  {
    forall i | 0 <= i < |OMIT_WHEN_NIL| ensures OMIT_WHEN_NIL[i][0] != 't' {
    }
    forall i | 0 <= i < |OMIT_WHEN_EMPTY| ensures OMIT_WHEN_EMPTY[i][0] != 't' {
    }
  }

  lemma FollowsNormal(zero: string -> bool, ms: Members)
    ensures Follows(ms, NormalizedObject(zero, ms), NewKey(ms, "tproxy_enabled"))
  {
    var t, added := PutTproxy(DeleteScript(ms)), NewKey(ms, "tproxy_enabled");
    FollowsTproxy(ms);
    TproxyNotOmitted();
    FollowsNulls(ms, t, added, OMIT_WHEN_NIL);
    FollowsFalsy(ms, zero, DeleteNulls(t, OMIT_WHEN_NIL), added, OMIT_WHEN_EMPTY);
  }

  lemma WireKeysStay(zero: string -> bool, ms: Members, k: string)
    requires Good(ms) && (k == "manifest_version" || k == "init_script")
    ensures k in FromMembers(NormalizedObject(zero, ms)) <==> k in FromMembers(ms)
  {
    NormalizedObjectMap(zero, ms);
    NormalizedAt(Js, zero, FromMembers(ms), k);
    WireFieldsKept(k);
  }

  lemma NamesApart()
    ensures "tproxy_enabled" != "manifest_version" && "tproxy_enabled" != "init_script"
    ensures "manifest_version" != "init_script"
  {
    assert "tproxy_enabled"[0] == 't' && "manifest_version"[0] == 'm' && "init_script"[0] == 'i';
  }

  /** The new keys, with or without an OS image. */
  ghost function Added(ms: Members, r: Members, version: Option<string>): seq<string> {
    NewKey(ms, "tproxy_enabled") +
    if version == None then []
    else
      NewKey(ms, "manifest_version") + if "init_script" in FromMembers(r) then NewKey(ms, "init_script") else []
  }

  /** The object that is hashed has the keys of the given one that are not dropped, in their
      order, and then the new ones: tproxy_enabled, manifest_version and init_script. */
  lemma PreprocessedOrder(zero: string -> bool, ms: Members, version: Option<string>)
    requires Good(ms) && Preprocessed(zero, ms, version).Ok?
    ensures var r := Preprocessed(zero, ms, version).value;
            Follows(ms, r, Added(ms, r, version))
  {
    FollowsNormal(zero, ms);
    match version
    case None =>
      var added := NewKey(ms, "tproxy_enabled");
      assert added + [] == added;
    case Some(v) =>
      var n := NormalizedObject(zero, ms);
      ImageOrder(zero, ms, n, ScriptsOf(zero, n), OsImage.IsBelow(Js, v), Preprocessed(zero, ms, version).value);
  }

  lemma ImageOrder(zero: string -> bool, ms: Members, n: Members, scripts: seq<J.Tree>, below: bool, r: Members)
    requires Good(ms) && n == NormalizedObject(zero, ms) && WireObject(n, scripts, below) == Ok(r)
    requires Follows(ms, n, NewKey(ms, "tproxy_enabled"))
    ensures Follows(ms, r, Added(ms, r, Some("")))
  {
    WireKeysStay(zero, ms, "manifest_version");
    WireKeysStay(zero, ms, "init_script");
    WireOrder(ms, n, scripts, below, r);
  }

  lemma WireOrder(ms: Members, n: Members, scripts: seq<J.Tree>, below: bool, r: Members)
    requires Follows(ms, n, NewKey(ms, "tproxy_enabled")) && WireObject(n, scripts, below) == Ok(r)
    requires "manifest_version" in FromMembers(n) <==> "manifest_version" in FromMembers(ms)
    requires "init_script" in FromMembers(n) <==> "init_script" in FromMembers(ms)
    ensures Follows(ms, r, Added(ms, r, Some("")))
  {
    NamesApart();
    var token := if below then J.Num("2") else J.Str("3");
    PutNew(ms, n, NewKey(ms, "tproxy_enabled"), "manifest_version", token);
    WriteScript(ms, Put(n, "manifest_version", token), scripts, below, r);
  }

  /** Writing a field that was there before exactly when it is there now. */
  lemma PutNew(ms: Members, n: Members, added: seq<string>, k: string, t: J.Tree)
    requires Follows(ms, n, added) && (k in FromMembers(n) <==> k in FromMembers(ms))
    ensures Follows(ms, Put(n, k, t), added + NewKey(ms, k))
    ensures forall j :: j != k ==> (j in FromMembers(Put(n, k, t)) <==> j in FromMembers(n))
  {
    SetOfKeys(ms, k);
    FollowsPut(ms, n, added, k, t);
    PutMap(n, k, t);
    assert added + [] == added;
  }

  lemma WriteScript(ms: Members, p: Members, scripts: seq<J.Tree>, below: bool, r: Members)
    requires var more := NewKey(ms, "tproxy_enabled") + NewKey(ms, "manifest_version");
             Follows(ms, p, more) && "init_script" !in more
    requires "init_script" in FromMembers(p) <==> "init_script" in FromMembers(ms)
    requires r == if below && |scripts| == 0 then Delete(p, "init_script")
                  else if below then if |scripts| == 1 then Put(p, "init_script", scripts[0]) else r
                  else Put(p, "init_script", J.Arr(scripts))
    requires below ==> |scripts| <= 1
    ensures Follows(ms, r, Added(ms, r, Some("")))
  {
    var a, b := NewKey(ms, "tproxy_enabled"), NewKey(ms, "manifest_version");
    if below && |scripts| == 0 {
      FollowsDelete(ms, p, a + b, "init_script");
      DeleteMap(p, "init_script");
      assert b + [] == b;
    } else {
      var t := if below then scripts[0] else J.Arr(scripts);
      PutNew(ms, p, a + b, "init_script", t);
      PutMap(p, "init_script", t);
      Associate(a, b, NewKey(ms, "init_script"));
    }
  }
}
