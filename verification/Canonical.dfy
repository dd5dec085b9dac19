/** Decoded compose documents and the canonical text that the Go client hashes. */
module Canonical {
  import opened Text
  import J = Json
  import L = LineSeparators
  import opened KeyOrder

  /** A decoded JSON value. Objects are maps: Go decodes them so. Numbers keep their tokens. */
  datatype Value =
    | Null
    | Bool(b: bool)
    | Num(token: string)
    | Str(s: string)
    | List(items: seq<Value>)
    | Dict(fields: map<string, Value>)

  predicate ValidValue(v: Value) {
    match v
    case Num(token) => J.NumToken(token)
    case List(items) => forall x :: x in items ==> ValidValue(x)
    case Dict(fields) => forall k :: k in fields ==> ValidValue(fields[k])
    case _ => true
  }

  /** What Go's encoder writes: the keys of every map sorted by bytes. */
  ghost function ToTree(v: Value): J.Tree {
    match v
    case Null => J.Null
    case Bool(b) => J.Bool(b)
    case Num(token) => J.Num(token)
    case Str(s) => J.Str(s)
    case List(items) => J.Arr(seq(|items|, i requires 0 <= i < |items| => ToTree(items[i])))
    case Dict(fields) =>
      var ks := Sorted(CodePoints, fields.Keys);
      assert forall i :: 0 <= i < |ks| ==> ks[i] in Elements(ks);
      J.Obj(seq(|ks|, i requires 0 <= i < |ks| => J.Member(ks[i], ToTree(fields[ks[i]]))))
  }

  function FromTree(t: J.Tree): Value {
    match t
    case Null => Null
    case Bool(b) => Bool(b)
    case Num(token) => Num(token)
    case Str(s) => Str(s)
    case Arr(items) => List(seq(|items|, i requires 0 <= i < |items| => FromTree(items[i])))
    case Obj(members) => Dict(FromMembers(members))
  }

  function FromMembers(members: seq<J.Member>): map<string, Value> {
    if members == [] then map[]
    else FromMembers(members[1..])[members[0].key := FromTree(members[0].value)]
  }

  /** What Go feeds to SHA-256: its encoder escapes the separators and ends with a
      newline, and the text is then rewritten. */
  ghost function Dump(v: Value): string {
    L.Unescape(TrimNewline(J.Print(true, ToTree(v)) + "\n"))
  }

  function TrimNewline(s: string): string {
    if s != "" && s[|s| - 1] == '\n' then s[..|s| - 1] else s
  }

  // ----- printing a document and reading it back

  lemma {:induction false} ToTreeWellFormed(v: Value)
    requires ValidValue(v)
    ensures J.WellFormed(ToTree(v))
  {
    match v
    case List(items) =>
      forall i | 0 <= i < |items| ensures J.WellFormed(ToTree(items[i])) {
        ToTreeWellFormed(items[i]);
      }
    case Dict(fields) =>
      forall k | k in fields ensures J.WellFormed(ToTree(fields[k])) {
        ToTreeWellFormed(fields[k]);
      }
      ToTreeMembers(fields);
    case _ =>
  }

  lemma ToTreeMembers(fields: map<string, Value>)
    ensures var ks, t := Sorted(CodePoints, fields.Keys), ToTree(Dict(fields));
            t.Obj? && |t.members| == |ks| &&
            forall i :: 0 <= i < |ks| ==> ks[i] in fields && t.members[i] == J.Member(ks[i], ToTree(fields[ks[i]]))
  {
    var ks := Sorted(CodePoints, fields.Keys);
    assert forall i :: 0 <= i < |ks| ==> ks[i] in Elements(ks);
  }

  lemma DumpIsPlainPrint(v: Value)
    requires ValidValue(v)
    ensures Dump(v) == J.Print(false, ToTree(v))
  {
    ToTreeWellFormed(v);
    var text := J.Print(true, ToTree(v));
    assert (text + "\n")[..|text|] == text;
    L.UnescapeDocument(ToTree(v));
  }

  predicate DistinctKeys(members: seq<J.Member>) {
    forall i, j :: 0 <= i < j < |members| ==> members[i].key != members[j].key
  }

  /** The entries of a list of members with distinct keys. */
  lemma {:induction false} FromMembersAt(members: seq<J.Member>, k: string)
    requires DistinctKeys(members)
    ensures k in FromMembers(members) <==> exists i :: 0 <= i < |members| && members[i].key == k
    ensures forall i :: 0 <= i < |members| && members[i].key == k ==>
              k in FromMembers(members) && FromMembers(members)[k] == FromTree(members[i].value)
  {
    if members != [] {
      var tail := members[1..];
      FromMembersAt(tail, k);
      if k in FromMembers(members) && members[0].key != k {
        var i :| 0 <= i < |tail| && tail[i].key == k;
        assert members[i + 1].key == k;
      }
      forall i | 0 <= i < |members| && members[i].key == k
        ensures k in FromMembers(members) && FromMembers(members)[k] == FromTree(members[i].value)
      {
        if i > 0 { assert tail[i - 1] == members[i]; }
      }
    }
  }

  /** The members are the fields of a map, each once. */
  ghost predicate ListsFields(fields: map<string, Value>, members: seq<J.Member>) {
    && DistinctKeys(members)
    && (forall i :: 0 <= i < |members| ==>
          members[i].key in fields && members[i].value == ToTree(fields[members[i].key]))
    && (forall k :: k in fields ==> exists i :: 0 <= i < |members| && members[i].key == k)
  }

  /** Go writes every field once and nothing else. */
  lemma MembersOfDict(fields: map<string, Value>)
    ensures ListsFields(fields, ToTree(Dict(fields)).members)
  {
    ToTreeMembers(fields);
    var ks := Sorted(CodePoints, fields.Keys);
    var members := ToTree(Dict(fields)).members;
    forall i, j | 0 <= i < j < |ks| ensures members[i].key != members[j].key {
      Total(CodePoints, ks[i], ks[j]);
    }
    forall k | k in fields ensures exists i :: 0 <= i < |members| && members[i].key == k {
      assert k in Elements(ks);
      var i :| 0 <= i < |ks| && ks[i] == k;
      assert members[i].key == k;
    }
  }

  /** The text loses nothing: the value comes back from the tree it prints. */
  lemma {:induction false} FromToTree(v: Value)
    ensures FromTree(ToTree(v)) == v
    decreases v
  {
    match v
    case List(items) =>
      forall i | 0 <= i < |items| ensures FromTree(ToTree(items[i])) == items[i] {
        FromToTree(items[i]);
      }
      assert FromTree(ToTree(v)).items == items;
    case Dict(fields) =>
      forall k | k in fields ensures FromTree(ToTree(fields[k])) == fields[k] {
        FromToTree(fields[k]);
      }
      MembersOfDict(fields);
      FromListing(fields, ToTree(v).members);
    case _ =>
  }

  lemma FromListing(fields: map<string, Value>, members: seq<J.Member>)
    requires ListsFields(fields, members)
    requires forall k :: k in fields ==> FromTree(ToTree(fields[k])) == fields[k]
    ensures FromMembers(members) == fields
  {
    forall k ensures k in FromMembers(members) <==> k in fields
             ensures k in FromMembers(members) && k in fields ==> FromMembers(members)[k] == fields[k]
    {
      FromMembersAt(members, k);
      if k in fields {
        var i :| 0 <= i < |members| && members[i].key == k;
      }
    }
  }

  /** An explicit reader of canonical text. */
  function Read(s: string): Option<Value> {
    match J.Parse(s)
    case Some(t) => Some(FromTree(t))
    case None => None
  }

  lemma ReadInvertsDump(v: Value)
    requires ValidValue(v)
    ensures Read(Dump(v)) == Some(v)
  {
    DumpIsPlainPrint(v);
    ToTreeWellFormed(v);
    J.ParseInvertsPrint(false, ToTree(v));
    FromToTree(v);
  }

  /** Canonical form: two documents have one Go text exactly when they are equal as
      values, so exactly when their nested maps are equal. */
  lemma DumpIsCanonical(a: Value, b: Value)
    requires ValidValue(a) && ValidValue(b)
    ensures Dump(a) == Dump(b) <==> a == b
  {
    ReadInvertsDump(a);
    ReadInvertsDump(b);
  }
}
