/** When the Go and the JavaScript client hash one text for one document. */
module CrossClient {
  import opened Text
  import J = Json
  import opened KeyOrder
  import opened Canonical
  import opened JsCanonical

  /** Every object at every level lists its keys in code point order, as Go writes them. */
  ghost predicate SortedThroughout(t: J.Tree) {
    match t
    case Arr(items) => forall i :: 0 <= i < |items| ==> SortedThroughout(items[i])
    case Obj(members) =>
      Ascending(CodePoints, Keys(members)) && forall i :: 0 <= i < |members| ==> SortedThroughout(members[i].value)
    case _ => true
  }

  /** An object with a "constructor" has to stand as Go would write it; any other must have no
      "__proto__" key and keys that code point order and JavaScript's enumeration list alike. */
  ghost predicate TreeAlike(t: J.Tree) {
    match t
    case Arr(items) => forall i :: 0 <= i < |items| ==> TreeAlike(items[i])
    case Obj(members) =>
      if HasKey(members, CONSTRUCTOR) then SortedThroughout(t)
      else
        PROTO !in MemberKeys(members) && SameOrder(CodePoints, JsEnumeration, MemberKeys(members)) &&
        forall i :: 0 <= i < |members| ==> TreeAlike(members[i].value)
    case _ => true
  }

  /** What Go writes for the map an object stands for, in terms of the object's members. */
  ghost predicate Writes(members: seq<J.Member>, written: seq<J.Member>) {
    && Keys(written) == Sorted(CodePoints, MemberKeys(members))
    && forall i, j :: 0 <= i < |written| && 0 <= j < |members| && written[i].key == members[j].key ==>
         written[i].value == ToTree(FromTree(members[j].value))
  }

  lemma WrittenMembers(members: seq<J.Member>)
    requires DistinctKeys(members)
    ensures ToTree(FromTree(J.Obj(members))).Obj? && Writes(members, ToTree(FromTree(J.Obj(members))).members)
  {
    FieldsOf(members);
    ToTreeMembers(FromMembers(members));
    var written := ToTree(FromTree(J.Obj(members))).members;
    assert Keys(written) == Sorted(CodePoints, MemberKeys(members));
  }

  /** Where a written member comes from. */
  lemma Source(members: seq<J.Member>, written: seq<J.Member>, i: nat) returns (j: nat)
    requires Writes(members, written) && i < |written|
    ensures j < |members| && members[j].key == written[i].key
  {
    assert Keys(written)[i] in Elements(Keys(written));
    j := Origin(members, Keys(written), i);
  }

  lemma {:induction false} WrittenAsItStands(t: J.Tree)
    requires IsObjectTree(t)
    ensures t == ToTree(FromTree(t)) <==> SortedThroughout(t)
  {
    match t
    case Arr(items) =>
      forall i | 0 <= i < |items| ensures items[i] == ToTree(FromTree(items[i])) <==> SortedThroughout(items[i]) {
        WrittenAsItStands(items[i]);
      }
      ItemsWritten(items);
    case Obj(members) =>
      forall i | 0 <= i < |members|
        ensures members[i].value == ToTree(FromTree(members[i].value)) <==> SortedThroughout(members[i].value)
      {
        WrittenAsItStands(members[i].value);
      }
      WrittenMembers(members);
      MembersStand(members, ToTree(FromTree(t)).members);
    case _ =>
  }

  lemma ItemsWritten(items: seq<J.Tree>)
    ensures var u := ToTree(FromTree(J.Arr(items)));
            u.Arr? && |u.items| == |items| &&
            (forall i :: 0 <= i < |items| ==> u.items[i] == ToTree(FromTree(items[i]))) &&
            (J.Arr(items) == u <==> forall i :: 0 <= i < |items| ==> items[i] == ToTree(FromTree(items[i])))
  {
    var u := ToTree(FromTree(J.Arr(items)));
    if forall i :: 0 <= i < |items| ==> items[i] == ToTree(FromTree(items[i])) {
      assert u.items == items;
    }
  }

  lemma MembersStand(members: seq<J.Member>, written: seq<J.Member>)
    requires DistinctKeys(members) && Writes(members, written)
    ensures members == written <==>
            Ascending(CodePoints, Keys(members)) &&
            forall i :: 0 <= i < |members| ==> members[i].value == ToTree(FromTree(members[i].value))
  {
    ElementsOfKeys(members);
    if Ascending(CodePoints, Keys(members)) {
      SortedUnique(CodePoints, Keys(members), Sorted(CodePoints, MemberKeys(members)));
      assert |members| == |written|;
      forall i | 0 <= i < |members|
        ensures written[i].key == members[i].key && written[i].value == ToTree(FromTree(members[i].value))
      {
        assert Keys(members)[i] == Keys(written)[i];
      }
      if forall i :: 0 <= i < |members| ==> members[i].value == ToTree(FromTree(members[i].value)) {
        assert members == written;
      }
    }
  }

  lemma {:induction false} TreesAlike(t: J.Tree)
    requires IsObjectTree(t)
    ensures SortObject(t) == ToTree(FromTree(t)) <==> TreeAlike(t)
  {
    match t
    case Arr(items) =>
      forall i | 0 <= i < |items| ensures SortObject(items[i]) == ToTree(FromTree(items[i])) <==> TreeAlike(items[i]) {
        TreesAlike(items[i]);
      }
      ItemsAlike(items);
    case Obj(members) =>
      if HasKey(members, CONSTRUCTOR) {
        WrittenAsItStands(t);
      } else {
        forall i | 0 <= i < |members|
          ensures SortObject(members[i].value) == ToTree(FromTree(members[i].value)) <==> TreeAlike(members[i].value)
        {
          TreesAlike(members[i].value);
        }
        SortedMembers(members);
        WrittenMembers(members);
        MembersAlike(members, SortObject(t).members, ToTree(FromTree(t)).members);
      }
    case _ =>
  }

  lemma ItemsAlike(items: seq<J.Tree>)
    ensures SortObject(J.Arr(items)) == ToTree(FromTree(J.Arr(items))) <==>
            forall i :: 0 <= i < |items| ==> SortObject(items[i]) == ToTree(FromTree(items[i]))
  {
    ItemsWritten(items);
    var s, u := SortObject(J.Arr(items)).items, ToTree(FromTree(J.Arr(items))).items;
    assert |s| == |u|;
    assert forall i :: 0 <= i < |items| ==> s[i] == SortObject(items[i]);
    assert s == u <==> forall i :: 0 <= i < |items| ==> s[i] == u[i];
  }

  lemma KeyListsAgree(ks: set<string>)
    ensures Sorted(CodePoints, ks) == RebuiltKeys(ks) <==> PROTO !in ks && SameOrder(CodePoints, JsEnumeration, ks)
  {
    var sorted, rebuilt := Sorted(CodePoints, ks), RebuiltKeys(ks);
    if PROTO in ks {
      DifferentKeys(sorted, rebuilt, PROTO);
    } else {
      SortedAgree(CodePoints, JsEnumeration, ks);
      assert rebuilt == Sorted(JsEnumeration, ks) by {
        assert ks - {PROTO} == ks;
      }
    }
  }

  lemma DifferentKeys(a: seq<string>, b: seq<string>, k: string)
    requires k in Elements(a) && k !in Elements(b)
    ensures a != b
  {
  }

  lemma MembersAlike(members: seq<J.Member>, sorted: seq<J.Member>, written: seq<J.Member>)
    requires DistinctKeys(members) && Rebuilds(members, sorted) && Writes(members, written)
    ensures sorted == written <==>
            PROTO !in MemberKeys(members) && SameOrder(CodePoints, JsEnumeration, MemberKeys(members)) &&
            forall j :: 0 <= j < |members| ==> SortObject(members[j].value) == ToTree(FromTree(members[j].value))
  {
    KeyListsAgree(MemberKeys(members));
    if sorted == written {
      forall j | 0 <= j < |members| ensures SortObject(members[j].value) == ToTree(FromTree(members[j].value)) {
        ElementsOfKeys(written);
        assert members[j].key in MemberKeys(written);
        var i :| 0 <= i < |written| && written[i].key == members[j].key;
      }
    }
    if Keys(sorted) == Keys(written) {
      if forall j :: 0 <= j < |members| ==> SortObject(members[j].value) == ToTree(FromTree(members[j].value)) {
        forall i | 0 <= i < |sorted| ensures sorted[i] == written[i] {
          assert Keys(sorted)[i] == Keys(written)[i];
          var j := Source(members, written, i);
        }
      }
    }
  }

  lemma {:induction false} ValidTree(t: J.Tree)
    requires IsObjectTree(t) && J.WellFormed(t)
    ensures ValidValue(FromTree(t))
  {
    match t
    case Arr(items) =>
      forall i | 0 <= i < |items| ensures ValidValue(FromTree(items[i])) {
        ValidTree(items[i]);
      }
    case Obj(members) =>
      FieldsOf(members);
      forall k | k in FromMembers(members) ensures ValidValue(FromMembers(members)[k]) {
        var i :| 0 <= i < |members| && members[i].key == k;
        ValidTree(members[i].value);
      }
    case _ =>
  }

  /** Go and JavaScript hash one text for a document exactly when its objects are alike for
      both at every level. */
  lemma ClientsDumpAlike(t: J.Tree)
    requires IsObjectTree(t) && J.WellFormed(t)
    ensures JsDump(t) == Dump(FromTree(t)) <==> TreeAlike(t)
  {
    ValidTree(t);
    DumpIsPlainPrint(FromTree(t));
    ToTreeWellFormed(FromTree(t));
    SortObjectWellFormed(t);
    TreesAlike(t);
    if JsDump(t) == Dump(FromTree(t)) {
      J.PrintInjective(false, SortObject(t), ToTree(FromTree(t)));
    }
  }

  /** Keys that are ASCII, no array indices, and neither "__proto__" nor "constructor". */
  predicate PlainKeys(v: Value) {
    match v
    case List(items) => forall i :: 0 <= i < |items| ==> PlainKeys(items[i])
    case Dict(fields) =>
      forall k :: k in fields ==> PlainKey(k) && k != PROTO && k != CONSTRUCTOR && PlainKeys(fields[k])
    case _ => true
  }

  /** Documents with such keys have one text in both clients, whatever their insertion order. */
  lemma PlainKeysDumpAlike(t: J.Tree)
    requires IsObjectTree(t) && J.WellFormed(t) && PlainKeys(FromTree(t))
    ensures JsDump(t) == Dump(FromTree(t))
  {
    PlainKeysAlike(t);
    ClientsDumpAlike(t);
  }

  lemma {:induction false} PlainKeysAlike(t: J.Tree)
    requires IsObjectTree(t) && PlainKeys(FromTree(t))
    ensures TreeAlike(t)
  {
    match t
    case Arr(items) =>
      forall i | 0 <= i < |items| ensures TreeAlike(items[i]) {
        assert FromTree(t).items[i] == FromTree(items[i]);
        PlainKeysAlike(items[i]);
      }
    case Obj(members) =>
      FieldsOf(members);
      PlainKeysSameOrder(MemberKeys(members));
      forall i | 0 <= i < |members| ensures TreeAlike(members[i].value) {
        PlainKeysAlike(members[i].value);
      }
    case _ =>
  }

  /** Array indices: Go writes key "10" before "9", JavaScript after. */
  lemma IndexKeysDisagree()
    ensures var t := J.Obj([J.Member("9", J.Null), J.Member("10", J.Null)]);
            IsObjectTree(t) && JsDump(t) != Dump(FromTree(t))
  {
    var members := [J.Member("9", J.Null), J.Member("10", J.Null)];
    var t := J.Obj(members);
    assert LexLess(false, "10", "9");
    assert Before(CodePoints, "10", "9") && !Before(JsEnumeration, "10", "9") && Before(JsEnumeration, "9", "10");
    assert Keys(members) == ["9", "10"];
    assert members[0].key in MemberKeys(members) && members[1].key in MemberKeys(members);
    assert !HasKey(members, CONSTRUCTOR);
    ClientsDumpAlike(t);
  }

  /** A "constructor" behind another key: Go sorts it to the front, JavaScript leaves it. */
  lemma ConstructorDisagrees()
    ensures var t := J.Obj([J.Member("name", J.Null), J.Member(CONSTRUCTOR, J.Null)]);
            IsObjectTree(t) && JsDump(t) != Dump(FromTree(t))
  {
    var members := [J.Member("name", J.Null), J.Member(CONSTRUCTOR, J.Null)];
    var t := J.Obj(members);
    assert "name"[0] == 'n' && CONSTRUCTOR[0] == 'c';
    assert Keys(members) == ["name", CONSTRUCTOR] && !IsArrayIndex(CONSTRUCTOR);
    assert members[1].key == CONSTRUCTOR;
    assert !Before(CodePoints, Keys(members)[0], Keys(members)[1]);
    ClientsDumpAlike(t);
  }
}
