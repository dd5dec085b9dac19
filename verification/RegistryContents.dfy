/** What the command trie holds after any sequence of registrations, and where a word leads in it. */
module RegistryContents {
  import opened Text
  import opened Registry

  /** The last group registered at a path. */
  function LastGroupAt(rs: seq<Registration>, p: Path): Option<Definition> {
    if rs == [] then None
    else
      var r := rs[|rs| - 1];
      if r.Group? && r.definition.path == p then Some(r.definition) else LastGroupAt(rs[..|rs| - 1], p)
  }

  predicate Names(d: Definition, p: Path, alias: string) {
    d.path != [] && Parent(d.path) == p && alias in d.aliases
  }

  /** What an alias below a path stands for: the name of the last command or group registered with it. */
  function LastNamed(rs: seq<Registration>, p: Path, alias: string): Option<string> {
    if rs == [] then None
    else
      var d := rs[|rs| - 1].definition;
      if Names(d, p, alias) then Some(Last(d.path)) else LastNamed(rs[..|rs| - 1], p, alias)
  }

  /** Some registration lies at the path or below. */
  predicate Covered(rs: seq<Registration>, p: Path) {
    exists i :: 0 <= i < |rs| && p <= rs[i].definition.path
  }

  function AliasOf(t: Trie, p: Path, alias: string): Option<string> {
    if p in t.aliases && alias in t.aliases[p] then Some(t.aliases[p][alias]) else None
  }

  lemma {:induction false} EnsureContents(t: Trie, path: Path, i: nat, p: Path, alias: string)
    requires i <= |path| && t.aliases.Keys == t.paths
    ensures var e := Ensure(t, path, i);
            (p in e.paths <==> p in t.paths || (i < |p| && p <= path)) &&
            AliasOf(e, p, alias) == AliasOf(t, p, alias) &&
            e.groups == t.groups && e.commands == t.commands && e.aliases.Keys == e.paths
    decreases |path| - i
  {
    if i < |path| {
      EnsureContents(Grow(t, path[..i + 1]), path, i + 1, p, alias);
      assert i < |p| && p <= path ==> p == path[..|p|];
      assert |p| == i + 1 && p <= path ==> p == path[..i + 1];
      assert path[..i + 1] <= path;
    }
  }

  lemma {:induction false} PutContents(t: Trie, q: Path, aliases: seq<string>, canonical: string, p: Path,
                                       alias: string)
    requires q in t.aliases
    ensures var u := PutAliases(t, q, aliases, canonical);
            AliasOf(u, p, alias) == (if p == q && alias in aliases then Some(canonical) else AliasOf(t, p, alias)) &&
            u.paths == t.paths && u.groups == t.groups && u.aliases.Keys == t.aliases.Keys
  {
    if aliases != [] {
      var n := |aliases| - 1;
      PutContents(t, q, aliases[..n], canonical, p, alias);
      PutOne(PutAliases(t, q, aliases[..n], canonical), q, aliases[n], canonical, p, alias);
      InFront(aliases, alias);
    }
  }

  lemma PutOne(t: Trie, q: Path, name: string, canonical: string, p: Path, alias: string)
    requires q in t.aliases
    ensures var u := PutAlias(t, q, name, canonical);
            AliasOf(u, p, alias) == (if p == q && alias == name then Some(canonical) else AliasOf(t, p, alias)) &&
            u.paths == t.paths && u.groups == t.groups && u.aliases.Keys == t.aliases.Keys
  {
  }

  lemma InFront(aliases: seq<string>, alias: string)
    requires aliases != []
    ensures alias in aliases <==> alias in aliases[..|aliases| - 1] || alias == aliases[|aliases| - 1]
  {
    assert aliases == aliases[..|aliases| - 1] + [aliases[|aliases| - 1]];
  }

  lemma ApplyContents(t: Trie, r: Registration, p: Path, alias: string)
    requires Sound(t)
    ensures var u, d := Apply(t, r), r.definition;
            (p in u.paths <==> p in t.paths || p <= d.path) &&
            AliasOf(u, p, alias) == (if Names(d, p, alias) then Some(Last(d.path)) else AliasOf(t, p, alias)) &&
            u.groups == if r.Group? then t.groups[d.path := d] else t.groups
  {
    var d := r.definition;
    EnsureContents(t, d.path, 0, p, alias);
    EnsureContents(t, d.path, 0, Parent(if d.path == [] then ["-"] else d.path), alias);
    var e := Ensure(t, d.path, 0);
    var f := if r.Command? then e.(commands := e.commands[d.path := d]) else e.(groups := e.groups[d.path := d]);
    assert p == [] ==> p in t.paths;
    if d.path != [] {
      PutContents(f, Parent(d.path), d.aliases, Last(d.path), p, alias);
    }
  }

  /** After any sequence of registrations there is a node for every prefix of a registered path
      and no other, a group where one was registered last, and an alias for the name it was
      last registered with. The commands are those of `RegisteredSound`. */
  lemma {:induction false} RegisteredExactly(rs: seq<Registration>, p: Path, alias: string)
    ensures var t := Registered(rs);
            (p in t.paths <==> p == [] || Covered(rs, p)) &&
            Found(t.groups, p) == LastGroupAt(rs, p) &&
            AliasOf(t, p, alias) == LastNamed(rs, p, alias)
  {
    if rs == [] {
      assert AliasOf(EMPTY, p, alias) == None;
    } else {
      var n := |rs| - 1;
      RegisteredExactly(rs[..n], p, alias);
      RegisteredSound(rs[..n]);
      ApplyContents(Registered(rs[..n]), rs[n], p, alias);
      CoveredStep(rs, p);
    }
  }

  lemma CoveredStep(rs: seq<Registration>, p: Path)
    requires rs != []
    ensures Covered(rs, p) <==> Covered(rs[..|rs| - 1], p) || p <= rs[|rs| - 1].definition.path
  {
    var n := |rs| - 1;
    if Covered(rs[..n], p) {
      var i :| 0 <= i < n && p <= rs[..n][i].definition.path;
      assert rs[i] == rs[..n][i];
    }
    if Covered(rs, p) {
      var i :| 0 <= i < |rs| && p <= rs[i].definition.path;
      assert i < n ==> rs[..n][i] == rs[i];
    }
  }

  /** Where a word leads from a node: to the child of that name, else to the child the word was
      last registered as an alias of, unless that is the empty name, else nowhere. */
  lemma WordLeads(rs: seq<Registration>, segments: Path, p: Path, word: string)
    requires NodeAt(Registered(rs), segments) == Some(p)
    ensures NodeAt(Registered(rs), segments + [word]) ==
            if Covered(rs, p + [word]) then Some(p + [word])
            else
              match LastNamed(rs, p, word)
              case Some(name) => if name == "" then None else Some(p + [name])
              case None => None
  {
    var t := Registered(rs);
    RegisteredSound(rs);
    RegisteredExactly(rs, p + [word], word);
    RegisteredExactly(rs, p, word);
    assert Parent(segments + [word]) == segments && Last(segments + [word]) == word;
    if p in t.aliases {
      assert AliasesPoint(t, p);
    }
  }

  /** A walk starts at the root, and a word behind one that leads nowhere leads nowhere. */
  lemma WalkEnds(t: Trie, segments: Path, word: string)
    ensures NodeAt(t, []) == Some([])
    ensures NodeAt(t, segments) == None ==> NodeAt(t, segments + [word]) == None
  {
    assert Parent(segments + [word]) == segments;
  }

  /** A resolution is the command of the longest non-empty prefix that leads to one, with the
      words split behind it; without such a prefix there is none. */
  lemma ResolvesExactly(rs: seq<Registration>, segments: Path)
    ensures var t, r := Registered(rs), Resolve(Registered(rs), segments);
            match r
            case None => forall k :: 0 < k <= |segments| ==> !EndsOnCommand(t, segments[..k])
            case Some(x) =>
              var n := |x.consumed|;
              && 0 < n <= |segments| && x.consumed == segments[..n] && x.remaining == segments[n..]
              && NodeAt(t, x.consumed).Some? && LastAt(rs, NodeAt(t, x.consumed).value) == Some(x.definition)
              && forall k :: n < k <= |segments| ==> !EndsOnCommand(t, segments[..k])
  {
    var t := Registered(rs);
    RegisteredSound(rs);
    forall k | 0 < k <= |segments| ensures CommandAt(t, segments, k) <==> EndsOnCommand(t, segments[..k]) {
    }
  }
}
