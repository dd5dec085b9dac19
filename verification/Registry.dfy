/** The command registry: a mutable trie of command names with aliases. */
module Registry {
  import opened Text

  type Path = seq<string>

  /** A command or group definition; `tag` stands for everything else it carries. */
  datatype Definition = Definition(path: Path, aliases: seq<string>, tag: int)

  datatype Resolution = Resolution(definition: Definition, consumed: Path, remaining: Path)

  // ----- the trie as a value

  datatype Trie = Trie(
    paths: set<Path>,
    commands: map<Path, Definition>,
    groups: map<Path, Definition>,
    aliases: map<Path, map<string, string>>)

  const EMPTY: Trie := Trie({[]}, map[], map[], map[[] := map[]])

  /** Every alias at a node names one of its children. */
  predicate AliasesPoint(t: Trie, p: Path)
    requires p in t.aliases
  {
    forall a :: a in t.aliases[p] ==> p + [t.aliases[p][a]] in t.paths
  }

  predicate HasParent(t: Trie, p: Path) {
    p == [] || Parent(p) in t.paths
  }

  /** The invariant of the trie: a tree of nodes from the root, and aliases that point at children. */
  predicate Sound(t: Trie) {
    && [] in t.paths
    && (forall p {:trigger HasParent(t, p)} :: p in t.paths ==> HasParent(t, p))
    && t.commands.Keys <= t.paths && t.groups.Keys <= t.paths
    && t.aliases.Keys == t.paths
    && (forall p {:trigger AliasesPoint(t, p)} :: p in t.paths ==> AliasesPoint(t, p))
  }

  function Grow(t: Trie, p: Path): Trie {
    if p in t.paths then t else t.(paths := t.paths + {p}, aliases := t.aliases[p := map[]])
  }

  /** All prefixes of `path` longer than `i` become nodes. */
  function Ensure(t: Trie, path: Path, i: nat): Trie
    requires i <= |path|
    decreases |path| - i
  {
    if i == |path| then t else Ensure(Grow(t, path[..i + 1]), path, i + 1)
  }

  function PutAlias(t: Trie, p: Path, alias: string, canonical: string): Trie {
    if p in t.aliases then t.(aliases := t.aliases[p := t.aliases[p][alias := canonical]]) else t
  }

  function PutAliases(t: Trie, p: Path, aliases: seq<string>, canonical: string): Trie {
    if aliases == [] then t
    else PutAlias(PutAliases(t, p, aliases[..|aliases| - 1], canonical), p, aliases[|aliases| - 1], canonical)
  }

  lemma PutAliasesStep(t: Trie, p: Path, aliases: seq<string>, i: nat, canonical: string)
    requires i < |aliases|
    ensures PutAliases(t, p, aliases[..i + 1], canonical)
            == PutAlias(PutAliases(t, p, aliases[..i], canonical), p, aliases[i], canonical)
  {
    assert aliases[..i + 1][..i] == aliases[..i];
  }

  function Parent(path: Path): Path
    requires path != []
  {
    path[..|path| - 1]
  }

  function Last(path: Path): string
    requires path != []
  {
    path[|path| - 1]
  }

  function WithAliases(t: Trie, d: Definition): Trie {
    if d.path == [] then t else PutAliases(t, Parent(d.path), d.aliases, Last(d.path))
  }

  function WithCommand(t: Trie, d: Definition): Trie {
    var e := Ensure(t, d.path, 0);
    WithAliases(e.(commands := e.commands[d.path := d]), d)
  }

  function WithGroup(t: Trie, g: Definition): Trie {
    var e := Ensure(t, g.path, 0);
    WithAliases(e.(groups := e.groups[g.path := g]), g)
  }

  /** A direct child hides an alias; an alias for the empty name is ignored. */
  function Child(t: Trie, p: Path, segment: string): Option<Path> {
    if p + [segment] in t.paths then Some(p + [segment])
    else if p in t.aliases && segment in t.aliases[p] && t.aliases[p][segment] != "" &&
            p + [t.aliases[p][segment]] in t.paths then Some(p + [t.aliases[p][segment]])
    else None
  }

  /** The canonical path of the node that segments lead to. */
  function NodeAt(t: Trie, segments: Path): Option<Path> {
    if segments == [] then Some([])
    else
      match NodeAt(t, Parent(segments))
      case None => None
      case Some(p) => Child(t, p, Last(segments))
  }

  predicate EndsOnCommand(t: Trie, segments: Path) {
    NodeAt(t, segments).Some? && NodeAt(t, segments).value in t.commands
  }

  predicate CommandAt(t: Trie, segments: Path, j: int)
    requires 0 <= j <= |segments|
  {
    EndsOnCommand(t, segments[..j])
  }

  /** The longest non-empty prefix, among the first `k` segments, that ends on a command. */
  function BestDepth(t: Trie, segments: Path, k: nat): (d: Option<nat>)
    requires k <= |segments|
    ensures d.Some? ==> 0 < d.value <= k && CommandAt(t, segments, d.value)
    ensures forall j :: (if d.Some? then d.value else 0) < j <= k ==> !CommandAt(t, segments, j)
  {
    if k == 0 then None
    else if CommandAt(t, segments, k) then Some(k)
    else BestDepth(t, segments, k - 1)
  }

  function Resolve(t: Trie, segments: Path): (r: Option<Resolution>)
    ensures r.Some? ==> r.value.consumed + r.value.remaining == segments
  {
    match BestDepth(t, segments, |segments|)
    case None => None
    case Some(k) =>
      assert segments[..k] + segments[k..] == segments;
      Some(Resolution(t.commands[NodeAt(t, segments[..k]).value], segments[..k], segments[k..]))
  }

  // ----- the mutable trie

  class Node {
    var command: Option<Definition>
    var group: Option<Definition>
    var children: map<string, Node>
    var aliasMap: map<string, string>
    /** The canonical path of this node. */
    ghost const path: Path

    constructor (ghost path: Path)
      ensures command == None && group == None && children == map[] && aliasMap == map[]
      ensures this.path == path
    {
      command, group, children, aliasMap := None, None, map[], map[];
      this.path := path;
    }
  }

  function Found<V>(m: map<Path, V>, p: Path): Option<V> {
    if p in m then Some(m[p]) else None
  }

  class CommandRegistry {
    const root: Node
    /** Every node under its canonical path, and the value the nodes represent. */
    ghost var nodes: map<Path, Node>
    ghost var trie: Trie

    ghost predicate Represents(p: Path)
      requires p in nodes
      reads this, nodes[p]
    {
      var n := nodes[p];
      && n.path == p
      && n.command == Found(trie.commands, p) && n.group == Found(trie.groups, p)
      && Some(n.aliasMap) == Found(trie.aliases, p)
      && (forall c :: c in n.children ==> p + [c] in nodes && n.children[c] == nodes[p + [c]])
    }

    /** Each node is where its parent's map says it is. */
    ghost predicate Linked(p: Path)
      reads this, nodes.Values
    {
      p == [] || (Parent(p) in nodes && Last(p) in nodes[Parent(p)].children)
    }

    ghost predicate Valid()
      reads this, nodes.Values
    {
      && Sound(trie) && trie.paths == nodes.Keys
      && nodes[[]] == root
      && (forall p {:trigger Represents(p)} :: p in nodes ==> Represents(p))
      && (forall p {:trigger Linked(p)} :: p in nodes ==> Linked(p))
    }

    constructor ()
      ensures Valid() && trie == EMPTY && fresh(nodes.Values)
    {
      root := new Node([]);
      new;
      nodes := map[[] := root];
      trie := EMPTY;
    }

    /** A child exists under a name exactly when the path has a node. */
    lemma ChildExists(p: Path, c: string)
      requires Valid() && p in nodes
      ensures c in nodes[p].children <==> p + [c] in nodes
      ensures c in nodes[p].children ==> nodes[p].children[c] == nodes[p + [c]]
    {
      assert Represents(p);
      if p + [c] in nodes {
        assert Parent(p + [c]) == p && Last(p + [c]) == c;
        assert Linked(p + [c]);
      }
    }

    method AddChild(ghost p: Path, current: Node, segment: string) returns (child: Node)
      requires Valid() && p in nodes && nodes[p] == current && segment !in current.children
      modifies this, current
      ensures Valid() && nodes == old(nodes)[p + [segment] := child] && fresh(child)
      ensures trie == Grow(old(trie), p + [segment])
    {
      ChildExists(p, segment);
      ghost var q := p + [segment];
      assert Parent(q) == p && Last(q) == segment;
      assert Represents(p);
      child := new Node(q);
      current.children := current.children[segment := child];
      nodes := nodes[q := child];
      trie := Grow(trie, q);
      GrowSound(old(trie), q);
      forall r | r in nodes ensures Represents(r) {
        if r != q { assert old(Represents(r)); }
      }
      forall r | r in nodes ensures Linked(r) {
        if r != q { assert old(Linked(r)); }
      }
    }

    /** One turn of the loop of ensurePath: the child under a segment, created when missing. */
    method EnsureChild(ghost p: Path, current: Node, segment: string) returns (child: Node)
      requires Valid() && p in nodes && nodes[p] == current
      modifies this, current
      ensures Valid() && p + [segment] in nodes && nodes[p + [segment]] == child
      ensures nodes.Values == old(nodes.Values) + {child} && (child in old(nodes.Values) || fresh(child))
      ensures trie == Grow(old(trie), p + [segment])
    {
      ChildExists(p, segment);
      if segment in current.children {
        return current.children[segment];
      }
      child := AddChild(p, current, segment);
    }

    method EnsurePath(path: Path) returns (node: Node)
      requires Valid()
      modifies this, nodes.Values
      ensures Valid() && path in nodes && nodes[path] == node
      ensures fresh(nodes.Values - old(nodes.Values))
      ensures trie == Ensure(old(trie), path, 0)
    {
      var current := root;
      for i := 0 to |path|
        invariant Valid()
        invariant path[..i] in nodes && nodes[path[..i]] == current
        invariant fresh(nodes.Values - old(nodes.Values))
        invariant Ensure(trie, path, i) == Ensure(old(trie), path, 0)
      {
        ghost var p := path[..i];
        assert path[..i + 1] == p + [path[i]];
        assert current in nodes.Values;
        ghost var before := trie;
        current := EnsureChild(p, current, path[i]);
        assert trie == Grow(before, path[..i + 1]);
      }
      assert path[..|path|] == path && Ensure(trie, path, |path|) == trie;
      node := current;
    }

    method GetChild(ghost p: Path, node: Node, segment: string) returns (child: Node?)
      requires Valid() && p in nodes && nodes[p] == node
      ensures child == null <==> Child(trie, p, segment) == None
      ensures child != null ==> Child(trie, p, segment).value in nodes && child == nodes[Child(trie, p, segment).value]
    {
      assert Represents(p);
      ChildExists(p, segment);
      if segment in node.children {
        return node.children[segment];
      }
      if segment !in node.aliasMap || node.aliasMap[segment] == "" {
        return null;
      }
      var alias := node.aliasMap[segment];
      ChildExists(p, alias);
      if alias in node.children {
        return node.children[alias];
      }
      return null;
    }

    method GetNode(path: Path) returns (node: Node?)
      requires Valid()
      ensures node == null <==> NodeAt(trie, path) == None
      ensures node != null ==> NodeAt(trie, path).value in nodes && node == nodes[NodeAt(trie, path).value]
    {
      var current := root;
      for i := 0 to |path|
        invariant NodeAt(trie, path[..i]).Some? && NodeAt(trie, path[..i]).value in nodes
        invariant current == nodes[NodeAt(trie, path[..i]).value]
      {
        assert path[..i + 1][..i] == path[..i];
        var next := GetChild(NodeAt(trie, path[..i]).value, current, path[i]);
        if next == null {
          WalkStops(trie, path, i + 1);
          return null;
        }
        current := next;
      }
      assert path[..|path|] == path;
      return current;
    }

    method RegisterCommand(definition: Definition)
      requires Valid()
      modifies this, nodes.Values
      ensures Valid() && fresh(nodes.Values - old(nodes.Values))
      ensures trie == WithCommand(old(trie), definition)
    {
      var node := EnsurePath(definition.path);
      SetCommand(node, definition);
      RegisterAliases(definition);
    }

    method SetCommand(node: Node, definition: Definition)
      requires Valid() && definition.path in nodes && nodes[definition.path] == node
      modifies this`trie, node`command
      ensures Valid()
      ensures trie == old(trie).(commands := old(trie).commands[definition.path := definition])
    {
      assert Represents(definition.path);
      DefineSound(trie, definition.path, definition);
      node.command := Some(definition);
      trie := trie.(commands := trie.commands[definition.path := definition]);
      forall q | q in nodes ensures Represents(q) {
        assert old(Represents(q));
      }
      forall q | q in nodes ensures Linked(q) {
        assert old(Linked(q));
      }
    }

    method RegisterGroup(group: Definition)
      requires Valid()
      modifies this, nodes.Values
      ensures Valid() && fresh(nodes.Values - old(nodes.Values))
      ensures trie == WithGroup(old(trie), group)
    {
      var node := EnsurePath(group.path);
      SetGroup(node, group);
      RegisterAliases(group);
    }

    method SetGroup(node: Node, group: Definition)
      requires Valid() && group.path in nodes && nodes[group.path] == node
      modifies this`trie, node`group
      ensures Valid()
      ensures trie == old(trie).(groups := old(trie).groups[group.path := group])
    {
      assert Represents(group.path);
      DefineSound(trie, group.path, group);
      node.group := Some(group);
      trie := trie.(groups := trie.groups[group.path := group]);
      forall q | q in nodes ensures Represents(q) {
        assert old(Represents(q));
      }
      forall q | q in nodes ensures Linked(q) {
        assert old(Linked(q));
      }
    }

    /** The second half of both register methods. The parent is found by walking, aliases and all. */
    method RegisterAliases(d: Definition)
      requires Valid() && d.path in nodes
      modifies this`trie, nodes.Values
      ensures Valid()
      ensures trie == WithAliases(old(trie), d)
    {
      if d.path == [] {
        return;
      }
      assert HasParent(trie, d.path);
      DirectWalk(trie, Parent(d.path));
      var parent := GetNode(Parent(d.path));
      ghost var p := Parent(d.path);
      assert p + [Last(d.path)] == d.path;
      for i := 0 to |d.aliases|
        invariant Valid()
        invariant p in nodes && nodes[p] == parent && p + [Last(d.path)] in nodes
        invariant trie == PutAliases(old(trie), p, d.aliases[..i], Last(d.path))
      {
        PutAliasesStep(old(trie), p, d.aliases, i, Last(d.path));
        SetAlias(p, parent, d.aliases[i], Last(d.path));
      }
      assert d.aliases[..|d.aliases|] == d.aliases;
    }

    method SetAlias(ghost p: Path, parent: Node, alias: string, canonical: string)
      requires Valid() && p in nodes && nodes[p] == parent && p + [canonical] in nodes
      modifies this`trie, parent`aliasMap
      ensures Valid()
      ensures trie == PutAlias(old(trie), p, alias, canonical)
    {
      assert Represents(p);
      PutAliasSound(trie, p, alias, canonical);
      parent.aliasMap := parent.aliasMap[alias := canonical];
      trie := PutAlias(trie, p, alias, canonical);
      forall q | q in nodes ensures Represents(q) {
        assert old(Represents(q));
      }
      forall q | q in nodes ensures Linked(q) {
        assert old(Linked(q));
      }
    }

    method ResolveCommand(segments: Path) returns (r: Option<Resolution>)
      requires Valid()
      ensures r == Resolve(trie, segments)
    {
      var node := root;
      var lastNode: Node?, lastDepth := null, 0;
      var index := 0;
      while index < |segments|
        invariant 0 <= index <= |segments|
        invariant NodeAt(trie, segments[..index]).Some? && NodeAt(trie, segments[..index]).value in nodes
        invariant node == nodes[NodeAt(trie, segments[..index]).value]
        invariant lastNode == null ==> BestDepth(trie, segments, index) == None
        invariant lastNode != null ==> BestDepth(trie, segments, index) == Some(lastDepth)
        invariant lastNode != null ==>
                    lastNode.command == Some(trie.commands[NodeAt(trie, segments[..lastDepth]).value])
      {
        assert segments[..index + 1][..index] == segments[..index];
        var next := GetChild(NodeAt(trie, segments[..index]).value, node, segments[index]);
        if next == null {
          WalkStops(trie, segments, index + 1);
          NothingDeeper(trie, segments, index, |segments|);
          break;
        }
        node := next;
        index := index + 1;
        assert Represents(NodeAt(trie, segments[..index]).value);
        if node.command.Some? {
          lastNode, lastDepth := node, index;
        }
      }
      if lastNode == null {
        return None;
      }
      return Some(Resolution(lastNode.command.value, segments[..lastDepth], segments[lastDepth..]));
    }
  }

  // ----- walking

  /** Once a walk fails it fails for good. */
  lemma {:induction false} WalkStops(t: Trie, segments: Path, i: nat)
    requires i <= |segments| && NodeAt(t, segments[..i]) == None
    ensures NodeAt(t, segments) == None
    ensures forall j :: i <= j <= |segments| ==> NodeAt(t, segments[..j]) == None
  {
    if i < |segments| {
      WalkStops(t, Parent(segments), i) by { assert Parent(segments)[..i] == segments[..i]; }
      forall j | i <= j <= |segments| ensures NodeAt(t, segments[..j]) == None {
        if j < |segments| { assert Parent(segments)[..j] == segments[..j]; }
        else { assert segments[..j] == segments; }
      }
    } else {
      assert segments[..i] == segments;
    }
  }

  lemma {:induction false} NothingDeeper(t: Trie, segments: Path, i: nat, k: nat)
    requires i <= k <= |segments|
    requires forall j :: i < j <= k ==> NodeAt(t, segments[..j]) == None
    ensures BestDepth(t, segments, k) == BestDepth(t, segments, i)
  {
    if i < k {
      NothingDeeper(t, segments, i, k - 1);
    }
  }

  /** A canonical path leads to its own node: no alias can divert it. */
  lemma {:induction false} DirectWalk(t: Trie, p: Path)
    requires Sound(t) && p in t.paths
    ensures NodeAt(t, p) == Some(p)
  {
    if p != [] {
      assert HasParent(t, p);
      DirectWalk(t, Parent(p));
      assert p == Parent(p) + [Last(p)];
    }
  }

  // ----- any sequence of registrations

  datatype Registration = Command(definition: Definition) | Group(definition: Definition)

  function Apply(t: Trie, r: Registration): Trie {
    match r
    case Command(d) => WithCommand(t, d)
    case Group(g) => WithGroup(t, g)
  }

  function Registered(rs: seq<Registration>): Trie {
    if rs == [] then EMPTY else Apply(Registered(rs[..|rs| - 1]), rs[|rs| - 1])
  }

  /** The last command registered at a path. */
  function LastAt(rs: seq<Registration>, p: Path): Option<Definition> {
    if rs == [] then None
    else
      var r := rs[|rs| - 1];
      if r.Command? && r.definition.path == p then Some(r.definition) else LastAt(rs[..|rs| - 1], p)
  }

  lemma GrowSound(t: Trie, p: Path)
    requires Sound(t) && p != [] && Parent(p) in t.paths
    ensures Sound(Grow(t, p))
  {
    var u := Grow(t, p);
    forall q | q in u.paths ensures AliasesPoint(u, q) && HasParent(u, q) {
      assert q in t.paths ==> AliasesPoint(t, q) && HasParent(t, q);
    }
  }

  lemma {:induction false} EnsureSound(t: Trie, path: Path, i: nat)
    requires Sound(t) && i <= |path| && path[..i] in t.paths
    ensures var e := Ensure(t, path, i);
            Sound(e) && path in e.paths && t.paths <= e.paths && e.commands == t.commands && e.groups == t.groups
    decreases |path| - i
  {
    if i < |path| {
      var g := Grow(t, path[..i + 1]);
      assert Parent(path[..i + 1]) == path[..i];
      GrowSound(t, path[..i + 1]);
      EnsureSound(g, path, i + 1);
    } else {
      assert path[..i] == path;
    }
  }

  lemma PutAliasSound(t: Trie, p: Path, alias: string, canonical: string)
    requires Sound(t) && p + [canonical] in t.paths
    ensures Sound(PutAlias(t, p, alias, canonical))
  {
    var u := PutAlias(t, p, alias, canonical);
    forall q | q in u.paths ensures AliasesPoint(u, q) {
      assert AliasesPoint(t, q);
    }
    forall q | q in u.paths ensures HasParent(u, q) {
      assert HasParent(t, q);
    }
  }

  lemma {:induction false} PutAliasesSound(t: Trie, p: Path, aliases: seq<string>, canonical: string)
    requires Sound(t) && p + [canonical] in t.paths
    ensures var u := PutAliases(t, p, aliases, canonical);
            Sound(u) && u.paths == t.paths && u.commands == t.commands && u.groups == t.groups
  {
    if aliases != [] {
      var n := |aliases| - 1;
      PutAliasesSound(t, p, aliases[..n], canonical);
      PutAliasSound(PutAliases(t, p, aliases[..n], canonical), p, aliases[n], canonical);
    }
  }

  lemma WithAliasesSound(t: Trie, d: Definition)
    requires Sound(t) && d.path in t.paths
    ensures var u := WithAliases(t, d);
            Sound(u) && u.paths == t.paths && u.commands == t.commands && u.groups == t.groups
  {
    if d.path != [] {
      assert d.path == Parent(d.path) + [Last(d.path)];
      PutAliasesSound(t, Parent(d.path), d.aliases, Last(d.path));
    }
  }

  lemma DefineSound(t: Trie, p: Path, d: Definition)
    requires Sound(t) && p in t.paths
    ensures Sound(t.(commands := t.commands[p := d])) && Sound(t.(groups := t.groups[p := d]))
  {
    var c, g := t.(commands := t.commands[p := d]), t.(groups := t.groups[p := d]);
    forall q | q in t.paths ensures AliasesPoint(c, q) && HasParent(c, q) && AliasesPoint(g, q) && HasParent(g, q) {
      assert AliasesPoint(t, q) && HasParent(t, q);
    }
  }

  /** Every registration keeps the trie sound; in particular every alias points at a child. */
  lemma ApplySound(t: Trie, r: Registration)
    requires Sound(t)
    ensures Sound(Apply(t, r))
    ensures Apply(t, r).commands == if r.Command? then t.commands[r.definition.path := r.definition] else t.commands
  {
    EnsureSound(t, r.definition.path, 0);
    var e := Ensure(t, r.definition.path, 0);
    DefineSound(e, r.definition.path, r.definition);
    match r
    case Command(d) => WithAliasesSound(e.(commands := e.commands[d.path := d]), d);
    case Group(g) => WithAliasesSound(e.(groups := e.groups[g.path := g]), g);
  }

  lemma {:induction false} RegisteredSound(rs: seq<Registration>)
    ensures Sound(Registered(rs))
    ensures forall p :: (p in Registered(rs).commands <==> LastAt(rs, p).Some?) &&
                        (p in Registered(rs).commands ==> Registered(rs).commands[p] == LastAt(rs, p).value)
  {
    if rs != [] {
      var n := |rs| - 1;
      RegisteredSound(rs[..n]);
      ApplySound(Registered(rs[..n]), rs[n]);
    }
  }

  /** Whatever else is registered, before or after, as command, group or alias: a registered
      non-empty path resolves, consumed whole, to the last definition registered at it. */
  lemma RegisteredPathResolves(rs: seq<Registration>, p: Path)
    requires p != [] && LastAt(rs, p).Some?
    ensures Resolve(Registered(rs), p) == Some(Resolution(LastAt(rs, p).value, p, []))
  {
    var t := Registered(rs);
    RegisteredSound(rs);
    DirectWalk(t, p);
    assert p[..|p|] == p && p[|p|..] == [];
  }

  /** Arguments after a registered path never make it resolve to a shorter one. */
  lemma ArgumentsDoNotShorten(rs: seq<Registration>, p: Path, arguments: Path)
    requires p != [] && LastAt(rs, p).Some?
    ensures var r := Resolve(Registered(rs), p + arguments);
            r.Some? && p <= r.value.consumed && r.value.remaining == arguments[|r.value.consumed| - |p|..]
  {
    var t, segments := Registered(rs), p + arguments;
    RegisteredSound(rs);
    DirectWalk(t, p);
    assert segments[..|p|] == p;
    assert CommandAt(t, segments, |p|);
  }

  /** Consumed is the longest prefix of the walk that ends on a command. */
  lemma ConsumedIsLongest(t: Trie, segments: Path, k: nat)
    requires k <= |segments| && k > 0 && EndsOnCommand(t, segments[..k])
    ensures Resolve(t, segments).Some? && |Resolve(t, segments).value.consumed| >= k
    ensures EndsOnCommand(t, Resolve(t, segments).value.consumed)
  {
    assert CommandAt(t, segments, k);
  }

  /** An alias works exactly where no child carries its name. */
  lemma AliasResolves(rs: seq<Registration>, p: Path, alias: string)
    requires var t := Registered(rs);
             p in t.paths && p + [alias] !in t.paths &&
             p in t.aliases && alias in t.aliases[p] && t.aliases[p][alias] != ""
    requires LastAt(rs, p + [Registered(rs).aliases[p][alias]]).Some?
    ensures Resolve(Registered(rs), p + [alias]) ==
            Some(Resolution(LastAt(rs, p + [Registered(rs).aliases[p][alias]]).value, p + [alias], []))
  {
    var t, segments := Registered(rs), p + [alias];
    RegisteredSound(rs);
    DirectWalk(t, p);
    assert Parent(segments) == p && Last(segments) == alias;
    assert segments[..|segments|] == segments && segments[|segments|..] == [];
  }

  lemma {:induction false} PutAliasesAt(t: Trie, p: Path, aliases: seq<string>, canonical: string, a: string)
    requires p in t.aliases && a in aliases
    ensures var u := PutAliases(t, p, aliases, canonical);
            p in u.aliases && a in u.aliases[p] && u.aliases[p][a] == canonical
  {
    var n := |aliases| - 1;
    PutAliasesKeep(t, p, aliases[..n], canonical);
    if a != aliases[n] {
      assert aliases == aliases[..n] + [aliases[n]];
      PutAliasesAt(t, p, aliases[..n], canonical, a);
    }
  }

  lemma {:induction false} PutAliasesKeep(t: Trie, p: Path, aliases: seq<string>, canonical: string)
    requires p in t.aliases
    ensures p in PutAliases(t, p, aliases, canonical).aliases
  {
    if aliases != [] {
      PutAliasesKeep(t, p, aliases[..|aliases| - 1], canonical);
    }
  }

  /** An alias a command has just been registered with leads to that command, unless a
      sibling already carries the name. */
  lemma NewAliasResolves(rs: seq<Registration>, d: Definition, alias: string)
    requires d.path != [] && Last(d.path) != "" && alias in d.aliases
    requires Parent(d.path) + [alias] !in Registered(rs + [Command(d)]).paths
    ensures Resolve(Registered(rs + [Command(d)]), Parent(d.path) + [alias]) ==
            Some(Resolution(d, Parent(d.path) + [alias], []))
  {
    var all, p := rs + [Command(d)], Parent(d.path);
    assert all[..|all| - 1] == rs;
    RegisteredSound(rs);
    EnsureSound(Registered(rs), d.path, 0);
    var e := Ensure(Registered(rs), d.path, 0);
    assert HasParent(e, d.path);
    PutAliasesAt(e.(commands := e.commands[d.path := d]), p, d.aliases, Last(d.path), alias);
    RegisteredSound(all);
    assert p + [Last(d.path)] == d.path;
    assert LastAt(all, d.path) == Some(d);
    AliasResolves(all, p, alias);
  }
}
