/** The JavaScript client's canonical text: objects with their key order, sortObject and what it hashes. */
module JsCanonical {
  import opened Text
  import J = Json
  import opened KeyOrder
  import opened Canonical

  const PROTO: string := "__proto__"
  const CONSTRUCTOR: string := "constructor"

  // ----- objects as JavaScript holds them

  function Keys(members: seq<J.Member>): (ks: seq<string>)
    ensures |ks| == |members| && forall i :: 0 <= i < |ks| ==> ks[i] == members[i].key
  {
    seq(|members|, i requires 0 <= i < |members| => members[i].key)
  }

  /** Each key once, array indices first and ascending, other keys as they were inserted. */
  ghost predicate EnumerationOrder(ks: seq<string>) {
    forall i, j :: 0 <= i < j < |ks| ==>
      ks[i] != ks[j] && (IsArrayIndex(ks[j]) ==> Before(JsEnumeration, ks[i], ks[j]))
  }

  ghost predicate IsObjectTree(t: J.Tree) {
    match t
    case Arr(items) => forall i :: 0 <= i < |items| ==> IsObjectTree(items[i])
    case Obj(members) => IsObject(members) && forall i :: 0 <= i < |members| ==> IsObjectTree(members[i].value)
    case _ => true
  }

  ghost predicate IsObject(members: seq<J.Member>)
    ensures IsObject(members) ==> DistinctKeys(members)
  {
    assert EnumerationOrder(Keys(members)) ==>
        forall i, j :: 0 <= i < j < |members| ==> Keys(members)[i] != Keys(members)[j];
    EnumerationOrder(Keys(members))
  }

  predicate HasKey(members: seq<J.Member>, k: string) {
    exists i :: 0 <= i < |members| && members[i].key == k
  }

  function Position(members: seq<J.Member>, k: string): (i: nat)
    requires HasKey(members, k)
    ensures i < |members| && members[i].key == k
  {
    if members[0].key == k then 0 else 1 + Position(members[1..], k)
  }

  function MemberKeys(members: seq<J.Member>): set<string> {
    set i | 0 <= i < |members| :: members[i].key
  }

  // ----- sortObject

  /** The keys of the rebuilt object: filled in UTF-16 order, with "__proto__" taken for a
      prototype, and then enumerated. */
  ghost function RebuiltKeys(ks: set<string>): (s: seq<string>)
    ensures s == Sorted(JsEnumeration, ks - {PROTO})
    ensures forall i :: 0 <= i < |s| ==> s[i] in ks - {PROTO}
  {
    OwnKeysOfSorted(ks - {PROTO});
    var s := OwnKeys(Sorted(Utf16, ks - {PROTO}));
    assert forall i :: 0 <= i < |s| ==> s[i] in Elements(s);
    s
  }

  /** An object with an own "constructor" is not taken for a plain one and is returned as it
      is; any other is rebuilt with sorted keys. */
  ghost function SortObject(t: J.Tree): J.Tree {
    match t
    case Arr(items) => J.Arr(seq(|items|, i requires 0 <= i < |items| => SortObject(items[i])))
    case Obj(members) =>
      if HasKey(members, CONSTRUCTOR) then t
      else
        var ks := RebuiltKeys(MemberKeys(members));
        J.Obj(seq(|ks|, i requires 0 <= i < |ks| =>
          J.Member(ks[i], SortObject(members[Position(members, ks[i])].value))))
    case _ => t
  }

  /** dumpAppCompose. */
  ghost function JsDump(t: J.Tree): string {
    J.Print(false, SortObject(t))
  }

  /** The rebuilt object, member by member. */
  ghost predicate Rebuilds(members: seq<J.Member>, sorted: seq<J.Member>) {
    && Keys(sorted) == RebuiltKeys(MemberKeys(members))
    && forall i, j :: 0 <= i < |sorted| && 0 <= j < |members| && sorted[i].key == members[j].key ==>
         sorted[i].value == SortObject(members[j].value)
  }

  lemma SortedMembers(members: seq<J.Member>)
    requires DistinctKeys(members) && !HasKey(members, CONSTRUCTOR)
    ensures SortObject(J.Obj(members)).Obj? && Rebuilds(members, SortObject(J.Obj(members)).members)
  {
    var ks, sorted := RebuiltKeys(MemberKeys(members)), SortObject(J.Obj(members)).members;
    assert Keys(sorted) == ks;
    forall i, j | 0 <= i < |sorted| && 0 <= j < |members| && sorted[i].key == members[j].key
      ensures sorted[i].value == SortObject(members[j].value)
    {
      assert Position(members, ks[i]) == j;
    }
  }

  /** Each member of the rebuilt object comes from one of the old one. */
  lemma Origin(members: seq<J.Member>, ks: seq<string>, i: nat) returns (j: nat)
    requires i < |ks| && ks[i] in MemberKeys(members)
    ensures j < |members| && members[j].key == ks[i]
  {
    j :| 0 <= j < |members| && members[j].key == ks[i];
  }

  lemma {:induction false} SortObjectWellFormed(t: J.Tree)
    requires J.WellFormed(t) && IsObjectTree(t)
    ensures J.WellFormed(SortObject(t))
  {
    match t
    case Arr(items) =>
      forall i | 0 <= i < |items| ensures J.WellFormed(SortObject(items[i])) {
        SortObjectWellFormed(items[i]);
      }
    case Obj(members) =>
      if !HasKey(members, CONSTRUCTOR) {
        SortedMembers(members);
        var sorted := SortObject(t).members;
        forall i | 0 <= i < |sorted| ensures J.WellFormed(sorted[i].value) {
          var j := Origin(members, Keys(sorted), i);
          SortObjectWellFormed(members[j].value);
        }
      }
    case _ =>
  }

  /** Two texts are equal exactly when the sorted trees are. */
  lemma DumpsShowTrees(a: J.Tree, b: J.Tree)
    requires IsObjectTree(a) && J.WellFormed(a) && IsObjectTree(b) && J.WellFormed(b)
    ensures JsDump(a) == JsDump(b) <==> SortObject(a) == SortObject(b)
  {
    SortObjectWellFormed(a);
    SortObjectWellFormed(b);
    if JsDump(a) == JsDump(b) {
      J.PrintInjective(false, SortObject(a), SortObject(b));
    }
  }

  // ----- what the text shows

  /** The value without "__proto__" keys, except at and below an object with a "constructor". */
  function Shown(v: Value): Value {
    match v
    case List(items) => List(seq(|items|, i requires 0 <= i < |items| => Shown(items[i])))
    case Dict(fields) =>
      if CONSTRUCTOR in fields then v
      else Dict(map k | k in fields && k != PROTO :: Shown(fields[k]))
    case _ => v
  }

  /** The map an object stands for, in terms of its members. */
  lemma FieldsOf(members: seq<J.Member>)
    requires DistinctKeys(members)
    ensures FromMembers(members).Keys == MemberKeys(members)
    ensures HasKey(members, CONSTRUCTOR) <==> CONSTRUCTOR in FromMembers(members)
    ensures forall i :: 0 <= i < |members| ==>
              members[i].key in FromMembers(members) &&
              FromMembers(members)[members[i].key] == FromTree(members[i].value)
  {
    forall k ensures k in FromMembers(members) <==> k in MemberKeys(members) {
      FromMembersAt(members, k);
    }
    FromMembersAt(members, CONSTRUCTOR);
    forall i | 0 <= i < |members|
      ensures members[i].key in FromMembers(members)
      ensures FromMembers(members)[members[i].key] == FromTree(members[i].value)
    {
      FromMembersAt(members, members[i].key);
    }
  }

  lemma RebuiltDistinct(sorted: seq<J.Member>, ks: set<string>)
    requires Keys(sorted) == RebuiltKeys(ks)
    ensures DistinctKeys(sorted) && MemberKeys(sorted) == ks - {PROTO}
  {
    var s := Keys(sorted);
    forall i, j | 0 <= i < j < |s| ensures sorted[i].key != sorted[j].key {
      Total(JsEnumeration, s[i], s[j]);
    }
    assert forall k :: k in s <==> k in Elements(s);
    assert forall k :: k in MemberKeys(sorted) <==> k in s;
  }

  lemma {:induction false} SortedShows(t: J.Tree)
    requires IsObjectTree(t)
    ensures FromTree(SortObject(t)) == Shown(FromTree(t))
  {
    match t
    case Arr(items) =>
      forall i | 0 <= i < |items| ensures FromTree(SortObject(items[i])) == Shown(FromTree(items[i])) {
        SortedShows(items[i]);
      }
      assert FromTree(SortObject(t)).items == Shown(FromTree(t)).items;
    case Obj(members) =>
      FieldsOf(members);
      if !HasKey(members, CONSTRUCTOR) {
        forall j | 0 <= j < |members|
          ensures FromTree(SortObject(members[j].value)) == Shown(FromTree(members[j].value))
        {
          SortedShows(members[j].value);
        }
        SortedMembers(members);
        RebuiltShows(members, SortObject(t).members);
      }
    case _ =>
  }

  lemma RebuiltShows(members: seq<J.Member>, sorted: seq<J.Member>)
    requires DistinctKeys(members) && !HasKey(members, CONSTRUCTOR) && Rebuilds(members, sorted)
    requires forall j :: 0 <= j < |members| ==>
               FromTree(SortObject(members[j].value)) == Shown(FromTree(members[j].value))
    ensures Dict(FromMembers(sorted)) == Shown(Dict(FromMembers(members)))
  {
    FieldsOf(members);
    RebuiltDistinct(sorted, MemberKeys(members));
    FieldsOf(sorted);
    var m, fields := FromMembers(sorted), FromMembers(members);
    forall k | k in m ensures k in fields && m[k] == Shown(fields[k]) {
      var i, j := RebuiltField(members, sorted, k);
    }
    ShownDict(fields, m);
  }

  lemma RebuiltField(members: seq<J.Member>, sorted: seq<J.Member>, k: string) returns (i: nat, j: nat)
    requires Rebuilds(members, sorted) && k in MemberKeys(sorted)
    ensures i < |sorted| && j < |members| && sorted[i].key == k == members[j].key
    ensures sorted[i].value == SortObject(members[j].value)
  {
    i :| 0 <= i < |sorted| && sorted[i].key == k;
    j := Origin(members, Keys(sorted), i);
  }

  lemma ShownDict(fields: map<string, Value>, m: map<string, Value>)
    requires CONSTRUCTOR !in fields && m.Keys == fields.Keys - {PROTO}
    requires forall k :: k in m ==> m[k] == Shown(fields[k])
    ensures Dict(m) == Shown(Dict(fields))
  {
    assert m == Shown(Dict(fields)).fields;
  }

  /** Reading the text of any document back gives its value, up to what is not shown. */
  lemma ReadInvertsJsDump(t: J.Tree)
    requires IsObjectTree(t) && J.WellFormed(t)
    ensures Read(JsDump(t)) == Some(Shown(FromTree(t)))
  {
    SortObjectWellFormed(t);
    J.ParseInvertsPrint(false, SortObject(t));
    SortedShows(t);
  }

  // ----- when two documents have one text

  /** Identical as objects where there is a "constructor", else equal in all other fields than "__proto__". */
  ghost predicate SameText(a: J.Tree, b: J.Tree)
    decreases a
  {
    match (a, b)
    case (Arr(x), Arr(y)) => |x| == |y| && forall i :: 0 <= i < |x| ==> SameText(x[i], y[i])
    case (Obj(x), Obj(y)) =>
      if HasKey(x, CONSTRUCTOR) || HasKey(y, CONSTRUCTOR) then x == y
      else
        MemberKeys(x) - {PROTO} == MemberKeys(y) - {PROTO} &&
        forall i, j :: 0 <= i < |x| && 0 <= j < |y| && x[i].key == y[j].key != PROTO ==>
          SameText(x[i].value, y[j].value)
    case _ => a == b
  }

  lemma {:induction false} SortsAlike(a: J.Tree, b: J.Tree)
    requires IsObjectTree(a) && IsObjectTree(b)
    ensures SortObject(a) == SortObject(b) <==> SameText(a, b)
    decreases a
  {
    match (a, b)
    case (Arr(x), Arr(y)) =>
      var s, t := SortObject(a).items, SortObject(b).items;
      assert |s| == |x| && |t| == |y|;
      if |x| == |y| {
        forall i | 0 <= i < |x| ensures s[i] == t[i] <==> SameText(x[i], y[i]) {
          SortsAlike(x[i], y[i]);
        }
        assert SameText(a, b) ==> forall i :: 0 <= i < |x| ==> s[i] == t[i];
      }
    case (Obj(x), Obj(y)) =>
      forall i, j | 0 <= i < |x| && 0 <= j < |y|
        ensures SortObject(x[i].value) == SortObject(y[j].value) <==> SameText(x[i].value, y[j].value)
      {
        SortsAlike(x[i].value, y[j].value);
      }
      ObjectsSortAlike(x, y);
    case _ =>
  }

  lemma ObjectsSortAlike(x: seq<J.Member>, y: seq<J.Member>)
    requires IsObject(x) && IsObject(y)
    requires forall i, j :: 0 <= i < |x| && 0 <= j < |y| ==>
               (SortObject(x[i].value) == SortObject(y[j].value) <==> SameText(x[i].value, y[j].value))
    ensures SortObject(J.Obj(x)) == SortObject(J.Obj(y)) <==> SameText(J.Obj(x), J.Obj(y))
  {
    if HasKey(x, CONSTRUCTOR) != HasKey(y, CONSTRUCTOR) {
      if HasKey(x, CONSTRUCTOR) { StaysPlain(y, x); } else { StaysPlain(x, y); }
    } else if !HasKey(x, CONSTRUCTOR) {
      PlainObjectsAlike(x, y);
    }
  }

  lemma PlainObjectsAlike(x: seq<J.Member>, y: seq<J.Member>)
    requires IsObject(x) && IsObject(y) && !HasKey(x, CONSTRUCTOR) && !HasKey(y, CONSTRUCTOR)
    requires forall i, j :: 0 <= i < |x| && 0 <= j < |y| ==>
               (SortObject(x[i].value) == SortObject(y[j].value) <==> SameText(x[i].value, y[j].value))
    ensures SortObject(J.Obj(x)) == SortObject(J.Obj(y)) <==> SameText(J.Obj(x), J.Obj(y))
  {
    SortedMembers(x);
    SortedMembers(y);
    RebuiltAlike(x, y, SortObject(J.Obj(x)).members, SortObject(J.Obj(y)).members);
  }

  /** Rebuilding adds no "constructor". */
  lemma StaysPlain(x: seq<J.Member>, y: seq<J.Member>)
    requires DistinctKeys(x) && !HasKey(x, CONSTRUCTOR) && HasKey(y, CONSTRUCTOR)
    ensures SortObject(J.Obj(x)) != J.Obj(y)
  {
    SortedMembers(x);
    RebuiltDistinct(SortObject(J.Obj(x)).members, MemberKeys(x));
    assert CONSTRUCTOR !in MemberKeys(x) && CONSTRUCTOR in MemberKeys(y);
  }

  lemma RebuiltAlike(x: seq<J.Member>, y: seq<J.Member>, s: seq<J.Member>, t: seq<J.Member>)
    requires Rebuilds(x, s) && Rebuilds(y, t)
    ensures s == t <==>
            MemberKeys(x) - {PROTO} == MemberKeys(y) - {PROTO} &&
            forall i, j :: 0 <= i < |x| && 0 <= j < |y| && x[i].key == y[j].key != PROTO ==>
              SortObject(x[i].value) == SortObject(y[j].value)
  {
    RebuiltDistinct(s, MemberKeys(x));
    RebuiltDistinct(t, MemberKeys(y));
    if s == t {
      forall i, j | 0 <= i < |x| && 0 <= j < |y| && x[i].key == y[j].key != PROTO
        ensures SortObject(x[i].value) == SortObject(y[j].value)
      {
        assert x[i].key in MemberKeys(s);
        var n :| 0 <= n < |s| && s[n].key == x[i].key;
      }
    }
    if MemberKeys(x) - {PROTO} == MemberKeys(y) - {PROTO} {
      assert Keys(s) == Keys(t);
      if forall i, j :: 0 <= i < |x| && 0 <= j < |y| && x[i].key == y[j].key != PROTO ==>
           SortObject(x[i].value) == SortObject(y[j].value) {
        forall n | 0 <= n < |s| ensures s[n] == t[n] {
          assert Keys(s)[n] == Keys(t)[n];
          var i := Origin(x, Keys(s), n);
          var j := Origin(y, Keys(t), n);
        }
      }
    }
  }

  /** The exact meaning of one JavaScript text, on all documents. */
  lemma JsDumpExactly(a: J.Tree, b: J.Tree)
    requires IsObjectTree(a) && J.WellFormed(a) && IsObjectTree(b) && J.WellFormed(b)
    ensures JsDump(a) == JsDump(b) <==> SameText(a, b)
  {
    DumpsShowTrees(a, b);
    SortsAlike(a, b);
  }

  /** Two different documents with one JavaScript text. */
  lemma ProtoIsNotHashed()
    ensures var a, b := J.Obj([J.Member(PROTO, J.Null)]), J.Obj([]);
            JsDump(a) == JsDump(b) && Dump(FromTree(a)) != Dump(FromTree(b))
  {
    var p := J.Member(PROTO, J.Null);
    assert JsDump(J.Obj([p])) == JsDump(J.Obj([])) by {
      assert CONSTRUCTOR[0] != PROTO[0];
      assert !HasKey([p], CONSTRUCTOR) && Keys([p])[0] == PROTO;
      assert MemberKeys([p]) == {PROTO} && MemberKeys([]) == {};
      SortsAlike(J.Obj([p]), J.Obj([]));
    }
    ProtoField(p);
  }

  lemma ProtoField(p: J.Member)
    requires p == J.Member(PROTO, J.Null)
    ensures Dump(FromTree(J.Obj([p]))) != Dump(FromTree(J.Obj([])))
  {
    FromMembersAt([p], PROTO);
    assert [p][0].key == PROTO;
    assert PROTO in FromMembers([p]) && PROTO !in FromMembers([]);
    assert FromMembers([p]) == map[PROTO := Null] by { assert [p][1..] == []; }
    DumpIsCanonical(Dict(FromMembers([p])), Dict(FromMembers([])));
  }

  /** A "constructor" makes the "__proto__" beside it count. */
  lemma ConstructorShowsProto()
    ensures var c, p := J.Member(CONSTRUCTOR, J.Null), J.Member(PROTO, J.Null);
            JsDump(J.Obj([c, p])) != JsDump(J.Obj([c]))
  {
    var c, p := J.Member(CONSTRUCTOR, J.Null), J.Member(PROTO, J.Null);
    assert CONSTRUCTOR[0] != PROTO[0];
    assert !IsArrayIndex(PROTO) && EnumerationOrder(Keys([c])) && EnumerationOrder(Keys([c, p]));
    assert [c][0].key == CONSTRUCTOR && |[c, p]| != |[c]|;
    JsDumpExactly(J.Obj([c, p]), J.Obj([c]));
  }

  // ----- when insertion order does not show

  ghost predicate TreeOf(t: J.Tree, v: Value) {
    IsObjectTree(t) && FromTree(t) == v
  }

  /** A value with one enumeration order only: no object has two keys that are no array indices. */
  predicate Rigid(v: Value) {
    match v
    case List(items) => forall i :: 0 <= i < |items| ==> Rigid(items[i])
    case Dict(fields) => RigidKeys(fields.Keys) && forall k :: k in fields ==> Rigid(fields[k])
    case _ => true
  }

  predicate RigidKeys(ks: set<string>) {
    forall j, k :: j in ks && k in ks && !IsArrayIndex(j) && !IsArrayIndex(k) ==> j == k
  }

  /** Objects with a "constructor" have to be rigid, and all that is shown of others order-free. */
  predicate OrderFree(v: Value) {
    match v
    case List(items) => forall i :: 0 <= i < |items| ==> OrderFree(items[i])
    case Dict(fields) =>
      if CONSTRUCTOR in fields then Rigid(v)
      else forall k :: k in fields && k != PROTO ==> OrderFree(fields[k])
    case _ => true
  }

  lemma RigidOrder(ks: seq<string>)
    requires EnumerationOrder(ks) && RigidKeys(Elements(ks))
    ensures ks == Sorted(JsEnumeration, Elements(ks))
  {
    forall i, j | 0 <= i < j < |ks| ensures Before(JsEnumeration, ks[i], ks[j]) {
      assert ks[i] in Elements(ks) && ks[j] in Elements(ks);
    }
    SortedUnique(JsEnumeration, ks, Sorted(JsEnumeration, Elements(ks)));
  }

  lemma ElementsOfKeys(members: seq<J.Member>)
    ensures Elements(Keys(members)) == MemberKeys(members)
  {
    assert forall k :: k in Keys(members) <==> k in MemberKeys(members);
  }

  lemma {:induction false} RigidTreesEqual(a: J.Tree, b: J.Tree)
    requires IsObjectTree(a) && IsObjectTree(b) && FromTree(a) == FromTree(b) && Rigid(FromTree(a))
    ensures a == b
  {
    match (a, b)
    case (Arr(x), Arr(y)) =>
      forall i | 0 <= i < |x| ensures x[i] == y[i] {
        assert FromTree(a).items[i] == FromTree(x[i]) && FromTree(b).items[i] == FromTree(y[i]);
        RigidTreesEqual(x[i], y[i]);
      }
    case (Obj(x), Obj(y)) =>
      RigidKeysEqual(x, y);
      FieldsOf(x);
      FieldsOf(y);
      forall i | 0 <= i < |x| ensures x[i] == y[i] {
        assert Keys(x)[i] == Keys(y)[i];
        RigidTreesEqual(x[i].value, y[i].value);
      }
    case _ =>
  }

  lemma RigidKeysEqual(x: seq<J.Member>, y: seq<J.Member>)
    requires IsObject(x) && IsObject(y) && FromMembers(x) == FromMembers(y)
    requires RigidKeys(FromMembers(x).Keys)
    ensures Keys(x) == Keys(y)
  {
    FieldsOf(x);
    FieldsOf(y);
    ElementsOfKeys(x);
    ElementsOfKeys(y);
    RigidOrder(Keys(x));
    RigidOrder(Keys(y));
  }

  /** For order-free values the text shows no more than the value. */
  lemma {:induction false} ShownDecides(a: J.Tree, b: J.Tree)
    requires IsObjectTree(a) && OrderFree(FromTree(a)) && IsObjectTree(b) && OrderFree(FromTree(b))
    requires Shown(FromTree(a)) == Shown(FromTree(b))
    ensures SameText(a, b)
    decreases a
  {
    match (a, b)
    case (Arr(x), Arr(y)) =>
      assert |Shown(FromTree(a)).items| == |x| && |Shown(FromTree(b)).items| == |y|;
      forall i | 0 <= i < |x| ensures SameText(x[i], y[i]) {
        assert FromTree(a).items[i] == FromTree(x[i]) && FromTree(b).items[i] == FromTree(y[i]);
        assert Shown(FromTree(a)).items[i] == Shown(FromTree(x[i]));
        assert Shown(FromTree(b)).items[i] == Shown(FromTree(y[i]));
        ShownDecides(x[i], y[i]);
      }
    case (Obj(x), Obj(y)) =>
      FieldsOf(x);
      FieldsOf(y);
      ShownKeys(FromMembers(x), FromMembers(y));
      if HasKey(x, CONSTRUCTOR) {
        RigidTreesEqual(a, b);
      } else {
        forall i, j | 0 <= i < |x| && 0 <= j < |y| && x[i].key == y[j].key != PROTO
          ensures SameText(x[i].value, y[j].value)
        {
          ShownDecides(x[i].value, y[j].value);
        }
      }
    case _ =>
  }

  lemma ShownKeys(f: map<string, Value>, g: map<string, Value>)
    requires Shown(Dict(f)) == Shown(Dict(g))
    ensures CONSTRUCTOR in f <==> CONSTRUCTOR in g
    ensures CONSTRUCTOR in f ==> f == g
    ensures f.Keys - {PROTO} == g.Keys - {PROTO}
    ensures CONSTRUCTOR !in f ==> forall k :: k in f && k in g && k != PROTO ==> Shown(f[k]) == Shown(g[k])
  {
    assert CONSTRUCTOR[0] != PROTO[0];
    var s, t := Shown(Dict(f)).fields, Shown(Dict(g)).fields;
    assert CONSTRUCTOR in s <==> CONSTRUCTOR in f;
    assert CONSTRUCTOR in t <==> CONSTRUCTOR in g;
    if CONSTRUCTOR !in f {
      assert s.Keys == f.Keys - {PROTO} && t.Keys == g.Keys - {PROTO};
      forall k | k in f && k in g && k != PROTO ensures Shown(f[k]) == Shown(g[k]) {
        assert s[k] == Shown(f[k]) && t[k] == Shown(g[k]);
      }
    }
  }

  /** dumpAppCompose hashes the value: for order-free documents, whatever their insertion
      order, one text means one shown value. */
  lemma OrderFreeTexts(a: J.Tree, b: J.Tree)
    requires IsObjectTree(a) && J.WellFormed(a) && OrderFree(FromTree(a))
    requires IsObjectTree(b) && J.WellFormed(b) && OrderFree(FromTree(b))
    ensures JsDump(a) == JsDump(b) <==> Shown(FromTree(a)) == Shown(FromTree(b))
  {
    ReadInvertsJsDump(a);
    ReadInvertsJsDump(b);
    if Shown(FromTree(a)) == Shown(FromTree(b)) {
      ShownDecides(a, b);
      JsDumpExactly(a, b);
    }
  }

  // ----- two trees of a value that is not order-free

  function Assemble(ks: seq<string>, values: map<string, J.Tree>): (members: seq<J.Member>)
    requires forall i :: 0 <= i < |ks| ==> ks[i] in values
    ensures Keys(members) == ks
  {
    seq(|ks|, i requires 0 <= i < |ks| => J.Member(ks[i], values[ks[i]]))
  }

  ghost predicate ValuesOf(values: map<string, J.Tree>, fields: map<string, Value>) {
    values.Keys == fields.Keys && forall k :: k in fields ==> TreeOf(values[k], fields[k])
  }

  ghost predicate IsField(m: J.Member, fields: map<string, Value>) {
    m.key in fields && FromTree(m.value) == fields[m.key]
  }

  lemma StandsForAt(members: seq<J.Member>, fields: map<string, Value>, k: string)
    requires DistinctKeys(members) && MemberKeys(members) == fields.Keys
    requires forall i :: 0 <= i < |members| ==> IsField(members[i], fields)
    ensures k in FromMembers(members) <==> k in fields
    ensures k in fields ==> FromMembers(members)[k] == fields[k]
  {
    FromMembersAt(members, k);
    assert k in fields <==> k in MemberKeys(members);
    if k in fields {
      var i :| 0 <= i < |members| && members[i].key == k;
      assert IsField(members[i], fields);
    }
  }

  /** An object whose members are the fields of a map stands for that map. */
  lemma StandsFor(members: seq<J.Member>, fields: map<string, Value>)
    requires DistinctKeys(members) && MemberKeys(members) == fields.Keys
    requires forall i :: 0 <= i < |members| ==> IsField(members[i], fields)
    ensures FromMembers(members) == fields
  {
    var m := FromMembers(members);
    forall k ensures k in m <==> k in fields
             ensures k in fields && k in m ==> m[k] == fields[k]
    {
      StandsForAt(members, fields, k);
    }
  }

  lemma AssembledTree(ks: seq<string>, values: map<string, J.Tree>, fields: map<string, Value>)
    requires EnumerationOrder(ks) && Elements(ks) == fields.Keys && ValuesOf(values, fields)
    ensures forall i :: 0 <= i < |ks| ==> ks[i] in values
    ensures TreeOf(J.Obj(Assemble(ks, values)), Dict(fields))
  {
    forall i | 0 <= i < |ks| ensures ks[i] in fields && ks[i] in values && TreeOf(values[ks[i]], fields[ks[i]]) {
      assert ks[i] in Elements(ks);
    }
    var members := Assemble(ks, values);
    ElementsOfKeys(members);
    assert IsObject(members);
    forall i | 0 <= i < |members| ensures IsField(members[i], fields) {
      assert TreeOf(values[ks[i]], fields[ks[i]]);
    }
    StandsFor(members, fields);
  }

  lemma SortedEnumerates(ks: set<string>)
    ensures EnumerationOrder(Sorted(JsEnumeration, ks))
  {
    var s := Sorted(JsEnumeration, ks);
    forall i, j | 0 <= i < j < |s| ensures s[i] != s[j] && Before(JsEnumeration, s[i], s[j]) {
      Total(JsEnumeration, s[i], s[j]);
    }
  }

  /** Every value has a tree. */
  ghost function Sample(v: Value): J.Tree {
    match v
    case Null => J.Null
    case Bool(b) => J.Bool(b)
    case Num(token) => J.Num(token)
    case Str(s) => J.Str(s)
    case List(items) => J.Arr(seq(|items|, i requires 0 <= i < |items| => Sample(items[i])))
    case Dict(fields) =>
      var ks := Sorted(JsEnumeration, fields.Keys);
      assert forall i :: 0 <= i < |ks| ==> ks[i] in Elements(ks);
      J.Obj(Assemble(ks, map k | k in fields :: Sample(fields[k])))
  }

  ghost function Samples(fields: map<string, Value>): map<string, J.Tree> {
    map k | k in fields :: Sample(fields[k])
  }

  lemma {:induction false} SampleIsTree(v: Value)
    ensures TreeOf(Sample(v), v)
  {
    match v
    case List(items) =>
      forall i | 0 <= i < |items| ensures TreeOf(Sample(items[i]), items[i]) {
        SampleIsTree(items[i]);
      }
      assert FromTree(Sample(v)).items == items;
    case Dict(fields) =>
      forall k | k in fields ensures TreeOf(Sample(fields[k]), fields[k]) {
        SampleIsTree(fields[k]);
      }
      SortedEnumerates(fields.Keys);
      AssembledTree(Sorted(JsEnumeration, fields.Keys), Samples(fields), fields);
    case _ =>
  }

  lemma SamplesAreTrees(fields: map<string, Value>)
    ensures ValuesOf(Samples(fields), fields)
  {
    forall k | k in fields ensures TreeOf(Sample(fields[k]), fields[k]) {
      SampleIsTree(fields[k]);
    }
  }

  /** Sample lists with one item exchanged. */
  lemma ListTree(items: seq<Value>, n: nat, t: J.Tree) returns (trees: seq<J.Tree>)
    requires n < |items| && TreeOf(t, items[n])
    ensures |trees| == |items| && trees[n] == t && TreeOf(J.Arr(trees), List(items))
  {
    trees := seq(|items|, i requires 0 <= i < |items| => if i == n then t else Sample(items[i]));
    forall i | 0 <= i < |items| ensures TreeOf(trees[i], items[i]) {
      SampleIsTree(items[i]);
    }
    assert FromTree(J.Arr(trees)).items == items;
  }

  /** Sample objects with one field exchanged. */
  lemma DictTree(fields: map<string, Value>, k: string, t: J.Tree) returns (members: seq<J.Member>, i: nat)
    requires k in fields && TreeOf(t, fields[k])
    ensures TreeOf(J.Obj(members), Dict(fields)) && i < |members| && members[i] == J.Member(k, t)
    ensures Keys(members) == Sorted(JsEnumeration, fields.Keys)
  {
    var ks, values := Sorted(JsEnumeration, fields.Keys), Samples(fields)[k := t];
    SortedEnumerates(fields.Keys);
    assert ValuesOf(values, fields) by {
      SamplesAreTrees(fields);
    }
    AssembledTree(ks, values, fields);
    members := Assemble(ks, values);
    i := Place(ks, k);
  }

  lemma Place(ks: seq<string>, k: string) returns (i: nat)
    requires k in Elements(ks)
    ensures i < |ks| && ks[i] == k
  {
    i :| 0 <= i < |ks| && ks[i] == k;
  }

  /** An enumeration with two string keys can end in either of them. */
  lemma OtherOrder(ks: set<string>) returns (s: seq<string>)
    requires !RigidKeys(ks)
    ensures EnumerationOrder(s) && Elements(s) == ks && s != Sorted(JsEnumeration, ks)
  {
    var t := Sorted(JsEnumeration, ks);
    TwoStrings(t);
    s := SwapLast(t);
    SwappedEnumerates(t);
    SwappedElements(t);
    Total(JsEnumeration, t[|t| - 2], t[|t| - 1]);
    assert s[|t| - 1] != t[|t| - 1];
  }

  lemma TwoStrings(t: seq<string>)
    requires Ascending(JsEnumeration, t) && !RigidKeys(Elements(t))
    ensures |t| >= 2 && !IsArrayIndex(t[|t| - 1]) && !IsArrayIndex(t[|t| - 2])
  {
    var j, k :| j in Elements(t) && k in Elements(t) && !IsArrayIndex(j) && !IsArrayIndex(k) && j != k;
    var x :| 0 <= x < |t| && t[x] == j;
    var y :| 0 <= y < |t| && t[y] == k;
    LastTwo(t, x, y);
  }

  function SwapLast(t: seq<string>): (s: seq<string>)
    requires |t| >= 2
    ensures |s| == |t|
  {
    t[..|t| - 2] + [t[|t| - 1], t[|t| - 2]]
  }

  lemma SwappedElements(t: seq<string>)
    requires |t| >= 2
    ensures Elements(SwapLast(t)) == Elements(t)
  {
    var front, x, y := t[..|t| - 2], t[|t| - 2], t[|t| - 1];
    assert t == front + [x, y];
    assert forall e :: e in front + [x, y] <==> e in front + [y, x];
  }

  lemma SwappedEnumerates(t: seq<string>)
    requires |t| >= 2 && Ascending(JsEnumeration, t)
    requires !IsArrayIndex(t[|t| - 1]) && !IsArrayIndex(t[|t| - 2])
    ensures EnumerationOrder(SwapLast(t))
  {
    var s, n := SwapLast(t), |t|;
    forall i, j | 0 <= i < j < n
      ensures s[i] != s[j] && (IsArrayIndex(s[j]) ==> Before(JsEnumeration, s[i], s[j]))
    {
      var x, y := if i < n - 2 then i else n - 1, if j < n - 2 then j else 2 * n - 3 - j;
      assert s[i] == t[x] && s[j] == t[y];
      Total(JsEnumeration, t[x], t[y]);
    }
  }

  lemma LastTwo(t: seq<string>, x: nat, y: nat)
    requires Ascending(JsEnumeration, t) && x < |t| && y < |t| && x != y
    requires !IsArrayIndex(t[x]) && !IsArrayIndex(t[y])
    ensures |t| >= 2 && !IsArrayIndex(t[|t| - 1]) && !IsArrayIndex(t[|t| - 2])
  {
    var n := |t|;
    var first := if x < y then x else y;
    assert first < n - 1;
    assert first < n - 2 ==> Before(JsEnumeration, t[first], t[n - 2]);
    assert Before(JsEnumeration, t[first], t[n - 1]);
  }

  lemma {:induction false} TwoTrees(v: Value) returns (a: J.Tree, b: J.Tree)
    requires !Rigid(v)
    ensures TreeOf(a, v) && TreeOf(b, v) && a != b
    decreases v
  {
    match v
    case List(items) =>
      var n :| 0 <= n < |items| && !Rigid(items[n]);
      var s, t := TwoTrees(items[n]);
      var x := ListTree(items, n, s);
      var y := ListTree(items, n, t);
      a, b := J.Arr(x), J.Arr(y);
    case Dict(fields) =>
      if !RigidKeys(fields.Keys) {
        a, b := TwoOrders(fields);
      } else {
        var k :| k in fields && !Rigid(fields[k]);
        var s, t := TwoTrees(fields[k]);
        a, b := TwoFields(fields, k, s, t);
      }
  }

  lemma TwoOrders(fields: map<string, Value>) returns (a: J.Tree, b: J.Tree)
    requires !RigidKeys(fields.Keys)
    ensures TreeOf(a, Dict(fields)) && TreeOf(b, Dict(fields)) && a != b
  {
    var other := OtherOrder(fields.Keys);
    SampleIsTree(Dict(fields));
    SamplesAreTrees(fields);
    AssembledTree(other, Samples(fields), fields);
    var members := Assemble(other, Samples(fields));
    a, b := Sample(Dict(fields)), J.Obj(members);
    assert Keys(a.members) == Sorted(JsEnumeration, fields.Keys) && Keys(members) == other;
  }

  lemma TwoFields(fields: map<string, Value>, k: string, s: J.Tree, t: J.Tree) returns (a: J.Tree, b: J.Tree)
    requires k in fields && TreeOf(s, fields[k]) && TreeOf(t, fields[k]) && s != t
    ensures TreeOf(a, Dict(fields)) && TreeOf(b, Dict(fields)) && a != b
    ensures k != PROTO && CONSTRUCTOR !in fields && SortObject(s) != SortObject(t) ==> SortObject(a) != SortObject(b)
  {
    var x, i := DictTree(fields, k, s);
    var y, j := DictTree(fields, k, t);
    a, b := J.Obj(x), J.Obj(y);
    assert Keys(x)[i] == k == Keys(y)[j];
    SameSpot(Sorted(JsEnumeration, fields.Keys), i, j);
    if k != PROTO && CONSTRUCTOR !in fields && SortObject(s) != SortObject(t) {
      FieldsOf(x);
      SortsAlike(s, t);
      SortsAlike(a, b);
      FieldsOf(y);
      assert !SameText(x[i].value, y[j].value);
    }
  }

  lemma SameSpot(ks: seq<string>, i: nat, j: nat)
    requires Ascending(JsEnumeration, ks) && i < |ks| && j < |ks| && ks[i] == ks[j]
    ensures i == j
  {
    Total(JsEnumeration, ks[i], ks[j]);
  }

  lemma {:induction false} TwoTexts(v: Value) returns (a: J.Tree, b: J.Tree)
    requires !OrderFree(v)
    ensures TreeOf(a, v) && TreeOf(b, v) && SortObject(a) != SortObject(b)
    decreases v
  {
    match v
    case List(items) =>
      var n :| 0 <= n < |items| && !OrderFree(items[n]);
      var s, t := TwoTexts(items[n]);
      var x := ListTree(items, n, s);
      var y := ListTree(items, n, t);
      a, b := J.Arr(x), J.Arr(y);
      assert SortObject(a).items[n] == SortObject(s) && SortObject(b).items[n] == SortObject(t);
    case Dict(fields) =>
      if CONSTRUCTOR in fields {
        a, b := TwoTrees(v);
        FieldsOf(a.members);
        FieldsOf(b.members);
      } else {
        var k :| k in fields && k != PROTO && !OrderFree(fields[k]);
        var s, t := TwoTexts(fields[k]);
        a, b := TwoFields(fields, k, s, t);
      }
  }

  /** All objects that stand for a value have one text. */
  ghost predicate OrderDoesNotShow(v: Value) {
    forall a, b :: TreeOf(a, v) && TreeOf(b, v) ==> JsDump(a) == JsDump(b)
  }

  lemma {:induction false} WellFormedTree(t: J.Tree)
    requires IsObjectTree(t) && ValidValue(FromTree(t))
    ensures J.WellFormed(t)
  {
    match t
    case Arr(items) =>
      forall i | 0 <= i < |items| ensures J.WellFormed(items[i]) {
        assert FromTree(t).items[i] == FromTree(items[i]);
        WellFormedTree(items[i]);
      }
    case Obj(members) =>
      FieldsOf(members);
      forall i | 0 <= i < |members| ensures J.WellFormed(members[i].value) {
        WellFormedTree(members[i].value);
      }
    case _ =>
  }

  /** Insertion order never shows in the text of a value exactly when it is order-free. */
  lemma OrderShowsExactly(v: Value)
    requires ValidValue(v)
    ensures OrderDoesNotShow(v) <==> OrderFree(v)
  {
    if OrderFree(v) {
      forall a, b | TreeOf(a, v) && TreeOf(b, v) ensures JsDump(a) == JsDump(b) {
        ShownDecides(a, b);
        SortsAlike(a, b);
      }
    } else {
      var a, b := TwoTexts(v);
      WellFormedTree(a);
      WellFormedTree(b);
      DumpsShowTrees(a, b);
    }
  }

  /** With a "constructor" key the insertion order shows: one map, two texts. */
  lemma ConstructorKeepsOrder()
    ensures var x, y := J.Member(CONSTRUCTOR, J.Null), J.Member("name", J.Null);
            FromTree(J.Obj([x, y])) == FromTree(J.Obj([y, x])) && JsDump(J.Obj([x, y])) != JsDump(J.Obj([y, x]))
  {
    var x, y := J.Member(CONSTRUCTOR, J.Null), J.Member("name", J.Null);
    var a, b := J.Obj([x, y]), J.Obj([y, x]);
    assert CONSTRUCTOR[0] != "name"[0];
    assert a.members[0].key == CONSTRUCTOR && b.members[1].key == CONSTRUCTOR;
    TwoMembers(x, y);
    assert a.members[0] != b.members[0];
    if J.Print(false, a) == J.Print(false, b) {
      J.PrintInjective(false, a, b);
    }
  }

  lemma TwoMembers(x: J.Member, y: J.Member)
    requires x.key != y.key
    ensures FromMembers([x, y]) == FromMembers([y, x])
  {
    assert [x, y][1..] == [y] && [y, x][1..] == [x] && [x][1..] == [] && [y][1..] == [];
    assert FromMembers([y]) == map[y.key := FromTree(y.value)] && FromMembers([x]) == map[x.key := FromTree(x.value)];
  }
}
