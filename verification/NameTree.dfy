/** The tree of names: vnodes linked into child lists. The specification is a flat
    map from paths to vnodes; lookups walk the tree and find what the map says. */
module NameTree {
  import opened Wrappers
  import opened Lists
  import opened Paths

  datatype Kind = FILE | DIR | DEVICE

  /** A vnode; next is its sibling link. */
  datatype Vnode = Vnode(name: string, kind: Kind, parent: Option<nat>, children: Option<nat>, next: Option<nat>)

  const NAME_MAX: nat := 64

  type Nodes = map<nat, Vnode>

  // Paths as a lookup cuts them.

  /** The names between single slashes, up to an empty rest. */
  function Tokens(s: string): seq<string>
  {
    if s == [] then []
    else
      var n := NameLen(s);
      [s[..n]] + if n < |s| then Tokens(s[n + 1..]) else []
  }

  function Join(stack: seq<string>): string
  {
    if stack == [] then []
    else if |stack| == 1 then stack[0]
    else stack[0] + "/" + Join(stack[1..])
  }

  lemma {:induction false} JoinPlus(stack: seq<string>, name: string)
    requires stack != []
    ensures Join(stack + [name]) == Join(stack) + "/" + name
    decreases |stack|
  {
    assert (stack + [name])[1..] == stack[1..] + [name];
    if |stack| > 1 { JoinPlus(stack[1..], name); } else { assert stack[1..] + [name] == [name]; }
  }

  lemma {:induction false} TailIsJoin(stack: seq<string>)
    requires stack != []
    ensures Tail(stack) == "/" + Join(stack)
    decreases |stack|
  {
    var rest, last := stack[..|stack| - 1], stack[|stack| - 1];
    assert stack == rest + [last];
    if rest == [] {
      assert Tail(rest) + "/" == "/";
    } else {
      TailIsJoin(rest);
      JoinPlus(rest, last);
    }
  }

  /** Cutting undoes joining, for any names without a slash, empty ones included but for
      the last. */
  lemma {:induction false} TokensJoin(stack: seq<string>)
    requires (forall i :: 0 <= i < |stack| ==> '/' !in stack[i]) && (stack != [] ==> stack[|stack| - 1] != [])
    ensures Tokens(Join(stack)) == stack
    decreases |stack|
  {
    if stack != [] {
      var s, c := Join(stack), stack[0];
      assert s[..|c|] == c;
      NameLenIs(s, |c|);
      assert s[..|c|] == c;
      if |stack| > 1 {
        assert s[|c| + 1..] == Join(stack[1..]);
        TokensJoin(stack[1..]);
      }
    }
  }

  /** A lookup cuts a canonical path into its stack. */
  lemma CanonicalTokens(path: string, stack: seq<string>)
    requires Canonical(path, stack)
    ensures path != [] && path[0] == '/' && Tokens(path[1..]) == stack
  {
    assert stack != [] ==> IsName(stack[|stack| - 1]);
    assert forall i :: 0 <= i < |stack| ==> IsName(stack[i]);
    TokensJoin(stack);
    if stack != [] {
      TailIsJoin(stack);
      assert path[1..] == Join(stack);
    }
  }

  // The tree.

  /** nodes is what the kernel keeps; kids spells each child list, path names each vnode. */
  datatype Tree = Tree(
    nodes: Nodes, root: nat, kids: map<nat, seq<nat>>,
    path: map<nat, seq<string>>, at: map<seq<string>, nat>)

  /** The child list of d. */
  ghost predicate ListOk(nodes: Nodes, d: nat, l: seq<nat>)
  {
    && d in nodes && nodes[d].children == At(l, 0)
    && (forall i :: 0 <= i < |l| ==> l[i] in nodes && nodes[l[i]].parent == Some(d))
    && (forall i {:trigger NextIn(l, i)} :: 0 <= i < |l| ==> nodes[l[i]].next == NextIn(l, i))
    && (l != [] ==> nodes[d].kind == DIR)
  }

  /** Where v stands: below its parent, under its name, and found by its path. */
  ghost predicate PlaceOk(t: Tree, v: nat)
  {
    v in t.nodes ==>
      && v in t.path && v in t.kids && ListOk(t.nodes, v, t.kids[v])
      && t.path[v] in t.at && t.at[t.path[v]] == v
      && if v == t.root then t.path[v] == [] && t.nodes[v].parent == None
         else
           var n := t.nodes[v];
           && n.parent.Some? && n.parent.value in t.nodes && n.parent.value in t.kids && v in t.kids[n.parent.value]
           && n.parent.value in t.path && t.path[v] == t.path[n.parent.value] + [n.name]
           && IsName(n.name) && n.name != "." && n.name != ".." && |n.name| < NAME_MAX
  }

  ghost predicate PathOk(t: Tree, s: seq<string>)
  {
    s in t.at ==> t.at[s] in t.nodes && t.at[s] in t.path && t.path[t.at[s]] == s
  }

  ghost predicate TreeOk(t: Tree)
  {
    && t.root in t.nodes && t.nodes[t.root].kind == DIR
    && (forall v {:trigger PlaceOk(t, v)} :: PlaceOk(t, v))
    && (forall s {:trigger PathOk(t, s)} :: PathOk(t, s))
  }

  /** Every proper prefix of a path is the path of a directory that has the next name. */
  lemma {:induction false} Ancestor(t: Tree, v: nat, k: nat) returns (d: nat, c: nat)
    requires TreeOk(t) && v in t.nodes && v in t.path && k < |t.path[v]|
    ensures d in t.nodes && d in t.path && d in t.kids && t.path[d] == t.path[v][..k]
    ensures t.path[d] in t.at && t.at[t.path[d]] == d
    ensures c in t.kids[d] && c in t.nodes && t.nodes[c].name == t.path[v][k]
    decreases |t.path[v]|
  {
    var s := t.path[v];
    assert PlaceOk(t, v);
    var p := t.nodes[v].parent.value;
    assert PlaceOk(t, p);
    assert t.path[p] == s[..|s| - 1];
    if k == |s| - 1 {
      d, c := p, v;
    } else {
      d, c := Ancestor(t, p, k);
      assert t.path[p][..k] == s[..k];
    }
  }

  class Vfs {
    var nodes: Nodes
    var root: nat
    ghost var t: Tree

    ghost predicate Valid()
      reads this
    {
      t.nodes == nodes && t.root == root && TreeOk(t)
    }

    /** A root directory and nothing else. */
    constructor ()
      ensures Valid() && t.at == map[[] := root] && root in nodes
    {
      var r := Vnode("/", DIR, None, None, None);
      nodes, root := map[0 := r], 0;
      t := Tree(map[0 := r], 0, map[0 := []], map[0 := []], map[[] := 0]);
    }

    /** The child of d with this name. */
    method FindChild(d: nat, name: string) returns (r: Option<nat>)
      requires Valid() && d in nodes && d in t.kids
      ensures r.Some? ==> r.value in t.kids[d] && r.value in nodes && nodes[r.value].name == name
      ensures r.None? ==> forall c :: c in t.kids[d] && c in nodes ==> nodes[c].name != name
    {
      assert PlaceOk(t, d);
      ghost var l, i := t.kids[d], 0;
      r := nodes[d].children;
      while r.Some?
        invariant 0 <= i <= |l| && r == At(l, i)
        invariant forall j :: 0 <= j < i ==> nodes[l[j]].name != name
        decreases |l| - i
      {
        if nodes[r.value].name == name {
          return;
        }
        assert nodes[l[i]].next == NextIn(l, i);
        r, i := nodes[r.value].next, i + 1;
      }
    }

    /** Finds a path: exactly the vnode that has it, if there is one. */
    method Lookup(path: string) returns (r: Option<nat>)
      requires Valid() && |path| < MAX_PATH
      ensures path == [] || path[0] != '/' ==> r == None
      ensures path != [] && path[0] == '/' ==>
        ghost var s := Tokens(path[1..]); r == if s in t.at then Some(t.at[s]) else None
    {
      if path == [] || path[0] != '/' {
        return None;
      }
      hide TreeOk, ListOk;
      ghost var all, k := Tokens(path[1..]), 0;
      var cur, tok := root, path[1..];
      Standing(t, cur);
      while tok != []
        invariant cur in nodes && cur in t.path && cur in t.kids && t.path[cur] in t.at && t.at[t.path[cur]] == cur
        invariant k <= |all| && t.path[cur] == all[..k] && Tokens(tok) == all[k..]
        decreases |tok|
      {
        var n := NameLen(tok);
        var name := tok[..n];
        assert name == all[k..][0] == all[k];
        var child := FindChild(cur, name);
        if child.None? {
          NotThere(t, cur, all, k);
          return None;
        }
        ChildPath(t, cur, child.value);
        assert all[..k] + [name] == all[..k + 1] && all[k..][1..] == all[k + 1..];
        cur, k := child.value, k + 1;
        tok := if n < |tok| then tok[n + 1..] else [];
      }
      assert all[..k] == all;
      r := Some(cur);
    }

    /** A new vnode in front of its parent's children. */
    method VnodeCreate(parent: nat, name: string, kind: Kind, memory: bool) returns (r: Option<nat>)
      requires Valid() && parent in nodes && nodes[parent].kind == DIR && parent in t.path
      requires IsName(name) && name != "." && name != ".." && |name| < NAME_MAX && t.path[parent] + [name] !in t.at
      modifies this
      ensures Valid() && root == old(root) && (r.None? <==> !memory)
      ensures r.None? ==> t == old(t)
      ensures r.Some? ==> Added(old(t), t, old(t).path[parent] + [name], r.value, kind)
    {
      if !memory {
        return None;
      }
      var v := Fresh(nodes);
      Standing(t, parent);
      AddedOk(t, parent, name, kind, v);
      ghost var t0 := t;
      nodes := nodes[v := Vnode(name, kind, Some(parent), None, nodes[parent].children)];
      nodes := nodes[parent := nodes[parent].(children := Some(v))];
      t := WithNode(t0, parent, name, kind, v);
      r := Some(v);
    }

    /** Creates a directory, unless something of that path is there already. */
    method MkDir(path: string, memory: bool, ghost stack: seq<string>) returns (ok: bool)
      requires Valid() && Canonical(path, stack) && |path| < MAX_PATH
      modifies this
      ensures Valid() && root == old(root)
      ensures stack in old(t.at) ==> t == old(t) && (ok <==> HasKind(t, stack, DIR))
      ensures stack !in old(t.at) ==> (ok <==> memory && Creatable(old(t), stack))
      ensures stack !in old(t.at) && ok ==> stack in t.at && Added(old(t), t, stack, t.at[stack], DIR)
      ensures !ok ==> t == old(t)
    {
      hide TreeOk;
      CanonicalTokens(path, stack);
      RootThere(t);
      var existing := Lookup(path);
      Found(t, stack);
      if existing.Some? {
        return nodes[existing.value].kind == DIR;
      }
      var parent := ParentOf(path, stack);
      if parent.None? || nodes[parent.value.0].kind != DIR {
        return false;
      }
      Found(t, stack[..|stack| - 1]);
      var (dir, name) := parent.value;
      assert stack == stack[..|stack| - 1] + [name];
      var r := VnodeCreate(dir, name, DIR, memory);
      ok := r.Some?;
    }

    /** Creates an empty file, or empties the one that is there. */
    method CreateFile(path: string, memory: bool, ghost stack: seq<string>) returns (ok: bool)
      requires Valid() && Canonical(path, stack) && |path| < MAX_PATH
      modifies this
      ensures Valid() && root == old(root)
      ensures stack in old(t.at) ==>
        t == old(t) && (ok <==> Creatable(t, stack) && HasKind(t, stack, FILE))
      ensures stack !in old(t.at) ==> (ok <==> memory && Creatable(old(t), stack))
      ensures stack !in old(t.at) && ok ==> stack in t.at && Added(old(t), t, stack, t.at[stack], FILE)
      ensures !ok ==> t == old(t)
    {
      hide TreeOk;
      var parent := ParentOf(path, stack);
      if parent.None? || nodes[parent.value.0].kind != DIR {
        return false;
      }
      CanonicalTokens(path, stack);
      Found(t, stack);
      Found(t, stack[..|stack| - 1]);
      var vn := Lookup(path);
      if vn.Some? {
        return nodes[vn.value].kind == FILE;
      }
      var (dir, name) := parent.value;
      assert stack == stack[..|stack| - 1] + [name];
      var r := VnodeCreate(dir, name, FILE, memory);
      ok := r.Some?;
    }

    /** The directory a path would be created in, and the name there. */
    method ParentOf(path: string, ghost stack: seq<string>) returns (r: Option<(nat, string)>)
      requires Valid() && Canonical(path, stack) && |path| < MAX_PATH
      ensures r.Some? <==> stack != [] && |stack[|stack| - 1]| < NAME_MAX && stack[..|stack| - 1] in t.at
      ensures r.Some? ==> r.value == (t.at[stack[..|stack| - 1]], stack[|stack| - 1])
      ensures r.Some? ==> r.value.0 in nodes
    {
      hide TreeOk;
      var split := SplitParentPath(path, stack);
      if split.None? {
        return None;
      }
      var (dir, name) := split.value;
      CanonicalTokens(dir, stack[..|stack| - 1]);
      var parent := Lookup(dir);
      Found(t, stack[..|stack| - 1]);
      if parent.None? {
        return None;
      }
      return Some((parent.value, name));
    }
  }

  lemma Standing(t: Tree, v: nat)
    requires TreeOk(t) && v in t.nodes
    ensures v in t.path && v in t.kids && t.path[v] in t.at && t.at[t.path[v]] == v && (v == t.root ==> t.path[v] == [])
  {
    assert PlaceOk(t, v);
  }

  lemma ChildPath(t: Tree, d: nat, c: nat)
    requires TreeOk(t) && d in t.nodes && d in t.kids && c in t.kids[d] && c in t.nodes
    ensures c in t.path && d in t.path && c in t.kids && t.path[c] == t.path[d] + [t.nodes[c].name]
    ensures t.path[c] in t.at && t.at[t.path[c]] == c
  {
    assert PlaceOk(t, d) && PlaceOk(t, c);
  }

  lemma NotThere(t: Tree, cur: nat, all: seq<string>, k: nat)
    requires TreeOk(t) && cur in t.nodes && cur in t.path && cur in t.kids && k < |all| && t.path[cur] == all[..k]
    requires forall c :: c in t.kids[cur] && c in t.nodes ==> t.nodes[c].name != all[k]
    ensures all !in t.at
  {
    assert PathOk(t, all) && PlaceOk(t, cur);
    if all in t.at {
      var d, c := Ancestor(t, t.at[all], k);
    }
  }

  /** Some vnode not in use. */
  method Fresh(nodes: Nodes) returns (v: nat)
    ensures v !in nodes
  {
    v := 0;
    var rest := nodes.Keys;
    while v in nodes
      invariant rest <= nodes.Keys && forall u :: u in nodes && u !in rest ==> u < v
      decreases |rest|
    {
      rest := rest - {v};
      v := v + 1;
    }
  }

  /** t with a new vnode v under parent. */
  ghost function WithNode(t: Tree, parent: nat, name: string, kind: Kind, v: nat): Tree
    requires parent in t.nodes && parent in t.kids && parent in t.path
  {
    var p := t.nodes[parent];
    var nodes := t.nodes[v := Vnode(name, kind, Some(parent), None, p.children)][parent := p.(children := Some(v))];
    Tree(nodes, t.root, t.kids[v := []][parent := [v] + t.kids[parent]],
         t.path[v := t.path[parent] + [name]], t.at[t.path[parent] + [name] := v])
  }

  /** One more path, and everything else as it was. */
  ghost predicate Added(t: Tree, t': Tree, s: seq<string>, v: nat, kind: Kind)
  {
    && s !in t.at && v !in t.nodes && t'.at == t.at[s := v] && t'.nodes.Keys == t.nodes.Keys + {v}
    && v in t'.nodes && t'.nodes[v].kind == kind
    && forall u :: u in t.nodes ==> u in t'.nodes && t'.nodes[u].kind == t.nodes[u].kind
  }

  lemma AddedOk(t: Tree, parent: nat, name: string, kind: Kind, v: nat)
    requires TreeOk(t) && parent in t.nodes && t.nodes[parent].kind == DIR && v !in t.nodes
    requires parent in t.path && parent in t.kids && t.path[parent] + [name] !in t.at
    requires IsName(name) && name != "." && name != ".." && |name| < NAME_MAX
    ensures TreeOk(WithNode(t, parent, name, kind, v))
    ensures Added(t, WithNode(t, parent, name, kind, v), t.path[parent] + [name], v, kind)
  {
    var t', s := WithNode(t, parent, name, kind, v), t.path[parent] + [name];
    forall u ensures PlaceOk(t', u) {
      AddedPlace(t, parent, name, kind, v, u);
    }
    forall q ensures PathOk(t', q) {
      assert PathOk(t, q);
    }
  }

  lemma AddedPlace(t: Tree, parent: nat, name: string, kind: Kind, v: nat, u: nat)
    requires TreeOk(t) && parent in t.nodes && t.nodes[parent].kind == DIR && v !in t.nodes
    requires parent in t.path && parent in t.kids && t.path[parent] + [name] !in t.at
    requires IsName(name) && name != "." && name != ".." && |name| < NAME_MAX
    ensures PlaceOk(WithNode(t, parent, name, kind, v), u)
  {
    var t' := WithNode(t, parent, name, kind, v);
    assert PlaceOk(t, u) && PlaceOk(t, parent) && PlaceOk(t, v);
    if u in t.nodes {
      AddedList(t, parent, name, kind, v, u);
    }
  }

  lemma AddedList(t: Tree, parent: nat, name: string, kind: Kind, v: nat, u: nat)
    requires parent in t.nodes && t.nodes[parent].kind == DIR && v !in t.nodes && parent in t.path && parent in t.kids
    requires u in t.nodes && u in t.kids && ListOk(t.nodes, u, t.kids[u]) && ListOk(t.nodes, parent, t.kids[parent])
    ensures ListOk(WithNode(t, parent, name, kind, v).nodes, u, WithNode(t, parent, name, kind, v).kids[u])
  {
    var t' := WithNode(t, parent, name, kind, v);
    var l, l' := t.kids[u], t'.kids[u];
    forall i | 0 <= i < |l'|
      ensures l'[i] in t'.nodes && t'.nodes[l'[i]].parent == Some(u) && t'.nodes[l'[i]].next == NextIn(l', i)
    {
      if u != parent {
        assert t.nodes[l[i]].next == NextIn(l, i);
      } else if i > 0 {
        assert l'[i] == l[i - 1] && t.nodes[l[i - 1]].next == NextIn(l, i - 1);
      }
    }
  }

  /** Its parent is a directory and its name is short enough. */
  ghost predicate Creatable(t: Tree, stack: seq<string>)
  {
    && stack != [] && |stack[|stack| - 1]| < NAME_MAX
    && stack[..|stack| - 1] in t.at
    && t.at[stack[..|stack| - 1]] in t.nodes && t.nodes[t.at[stack[..|stack| - 1]]].kind == DIR
  }

  ghost predicate HasKind(t: Tree, stack: seq<string>, kind: Kind)
  {
    stack in t.at && t.at[stack] in t.nodes && t.nodes[t.at[stack]].kind == kind
  }

  lemma RootThere(t: Tree)
    requires TreeOk(t)
    ensures [] in t.at
  {
    assert PlaceOk(t, t.root);
  }

  lemma Found(t: Tree, s: seq<string>)
    requires TreeOk(t)
    ensures s in t.at ==> t.at[s] in t.nodes && t.at[s] in t.path && t.path[t.at[s]] == s
  {
    assert PathOk(t, s);
  }

  /** The last slash of a path. */
  method LastSlashOf(path: string) returns (at: nat)
    requires path != [] && path[0] == '/'
    ensures at < |path| && path[at] == '/' && forall i :: at < i < |path| ==> path[i] != '/'
  {
    at := 0;
    for i := 1 to |path|
      invariant at < i && path[at] == '/' && forall j :: at < j < i ==> path[j] != '/'
    {
      if path[i] == '/' {
        at := i;
      }
    }
  }

  /** A canonical path splits into its parent's path and its last name. */
  method SplitParentPath(path: string, ghost stack: seq<string>) returns (r: Option<(string, string)>)
    requires Canonical(path, stack) && |path| < MAX_PATH
    ensures r.Some? <==> stack != [] && |stack[|stack| - 1]| < NAME_MAX
    ensures r.Some? ==>
      && Canonical(r.value.0, stack[..|stack| - 1]) && r.value.1 == stack[|stack| - 1]
      && |r.value.0| < MAX_PATH
  {
    RootOnly(stack);
    if path == [] || path[0] != '/' || |path| == 1 {
      return None;
    }
    LastSlash(stack);
    var last := LastSlashOf(path);
    ghost var front := stack[..|stack| - 1];
    assert path == Tail(front) + "/" + stack[|stack| - 1];
    assert last == |Tail(front)|;
    var name := path[last + 1..];
    assert name == stack[|stack| - 1];
    if |name| == 0 || |name| >= NAME_MAX {
      return None;
    }
    if last == 0 {
      return Some(("/", name));
    }
    return Some((path[..last], name));
  }

  /** Siblings have different names. */
  lemma SiblingsDiffer(t: Tree, d: nat, a: nat, b: nat)
    requires TreeOk(t) && d in t.nodes && d in t.kids && a in t.kids[d] && b in t.kids[d] && a != b
    ensures a in t.nodes && b in t.nodes && t.nodes[a].name != t.nodes[b].name
  {
    assert PlaceOk(t, d) && PlaceOk(t, a) && PlaceOk(t, b);
  }

  /** The path of every vnode is canonical, and looking it up finds the vnode. */
  lemma {:induction false} PathClean(t: Tree, v: nat)
    requires TreeOk(t) && v in t.nodes
    ensures v in t.path && Clean(t.path[v]) && t.path[v] in t.at && t.at[t.path[v]] == v
    ensures Tokens(Render(t.path[v])[1..]) == t.path[v]
    decreases if v in t.path then |t.path[v]| else 0
  {
    assert PlaceOk(t, v);
    if v != t.root {
      PathClean(t, t.nodes[v].parent.value);
    }
    CanonicalTokens(Render(t.path[v]), t.path[v]);
  }
}
