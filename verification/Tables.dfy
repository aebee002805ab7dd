/** The state of physical memory and page tables, seen as values, with the
    invariant that every kernel operation keeps. All clauses are local: each
    speaks of one table, one entry, one leaf or one frame. */
module Tables {
  import opened Wrappers
  import opened Paging
  import opened Pmm

  /** What a used frame is used for. */
  datatype Owner = TableAt(path: Path) | UserPage | Other

  /** mem, free and rc are the machine's; tree, owner, leaf and users describe it:
      tree  - the frame of the table at each position,
      leaf  - every present leaf (4 KiB, or 2 MiB in shared tables) by position,
      users - for each user page frame, the leaves that map it. */
  datatype Sys = Sys(
    mem: map<nat, Content>, free: set<nat>, rc: seq<nat>,
    tree: map<Path, nat>, owner: map<nat, Owner>, leaf: map<Path, Pte>, users: map<nat, set<Path>>)

  /** The shared tables that private tables link to. */
  predicate IsSharedTop(p: Path)
  {
    p.Sub? && (p.up == Root(Shared) || p.up == Sub(Root(Shared), 0))
  }

  ghost predicate NodeOk(mem: map<nat, Content>, tree: map<Path, nat>, owner: map<nat, Owner>, p: Path)
  {
    p in tree ==>
      var f := tree[p];
      && IsPos(p) && Depth(p) <= 3
      && f in owner && owner[f] == TableAt(p)
      && f in mem && mem[f].Table? && |mem[f].entries| == ENTRIES
      && (p.Root? ==> p == Root(Private(f)))
      && (p.Sub? && !IsSharedTop(p) ==> p.up in tree)
  }

  ghost predicate NodesOk(mem: map<nat, Content>, tree: map<Path, nat>, owner: map<nat, Owner>)
  {
    forall p {:trigger NodeOk(mem, tree, owner, p)} :: NodeOk(mem, tree, owner, p)
  }

  function EntryAt(mem: map<nat, Content>, tree: map<Path, nat>, p: Path, i: nat): Pte
  {
    if p in tree && tree[p] in mem && mem[tree[p]].Table? && i < |mem[tree[p]].entries|
    then mem[tree[p]].entries[i] else NO_PTE
  }

  /** Entry e in slot i of the table at p agrees with tree and leaf. */
  ghost predicate EntryMeans(tree: map<Path, nat>, leaf: map<Path, Pte>, p: Path, i: nat, e: Pte)
  {
    var c := Child(p, i);
    if !e.present then
      e == NO_PTE && c !in tree && c !in leaf
    else if e.huge || Depth(p) == 3 then
      && c in leaf && leaf[c] == e && c !in tree
      && (e.huge <==> Depth(p) < 3) && (e.huge ==> Depth(p) == 2 && !IsPrivate(c))
    else
      && c in tree && tree[c] == e.frame && c !in leaf
      && (IsPrivate(c) ==> e.write)
  }

  ghost predicate EntryOk(mem: map<nat, Content>, tree: map<Path, nat>, leaf: map<Path, Pte>, p: Path, i: nat)
  {
    p in tree && i < ENTRIES ==> EntryMeans(tree, leaf, p, i, EntryAt(mem, tree, p, i))
  }

  ghost predicate EntriesOk(mem: map<nat, Content>, tree: map<Path, nat>, leaf: map<Path, Pte>)
  {
    forall p, i: nat {:trigger EntryOk(mem, tree, leaf, p, i)} :: EntryOk(mem, tree, leaf, p, i)
  }

  /** The table at p may have private entries: the link to it is open to user accesses. */
  ghost predicate Opened(mem: map<nat, Content>, tree: map<Path, nat>, p: Path)
  {
    p.Sub? && IsPrivate(p) ==> EntryAt(mem, tree, p.up, p.idx).user
  }

  /** Whatever hangs privately below a table hangs below an open link. */
  ghost predicate OpenOk(mem: map<nat, Content>, tree: map<Path, nat>, leaf: map<Path, Pte>, q: Path)
  {
    (q in tree || q in leaf) && q.Sub? && IsPrivate(q) ==> Opened(mem, tree, q.up)
  }

  ghost predicate OpensOk(mem: map<nat, Content>, tree: map<Path, nat>, leaf: map<Path, Pte>)
  {
    forall q {:trigger OpenOk(mem, tree, leaf, q)} :: OpenOk(mem, tree, leaf, q)
  }

  ghost predicate LeafOk(tree: map<Path, nat>, leaf: map<Path, Pte>, users: map<nat, set<Path>>, l: Path)
  {
    l in leaf ==>
      && l.Sub? && IsPos(l) && l.up in tree && leaf[l].present
      && (leaf[l].user <==> IsPrivate(l))
      && (IsPrivate(l) ==>
            && Depth(l) == 4 && !leaf[l].huge
            && leaf[l].frame in users && l in users[leaf[l].frame]
            // Copy-on-write: a writable leaf is the only leaf of its frame.
            && (leaf[l].write ==> users[leaf[l].frame] == {l}))
  }

  ghost predicate LeavesOk(tree: map<Path, nat>, leaf: map<Path, Pte>, users: map<nat, set<Path>>)
  {
    forall l {:trigger LeafOk(tree, leaf, users, l)} :: LeafOk(tree, leaf, users, l)
  }

  /** The leaves ls all map frame f, and no two of them belong to one space. */
  ghost predicate LeavesOf(leaf: map<Path, Pte>, f: nat, ls: set<Path>)
  {
    && (forall l :: l in ls ==> l in leaf && IsPrivate(l) && leaf[l].frame == f)
    && (forall l, m :: l in ls && m in ls && SpaceOf(l) == SpaceOf(m) ==> l == m)
  }

  /** Reference accounting: leaves plus the reference the running operation holds. */
  ghost predicate UserOk(s: Sys, f: nat, held: Option<nat>)
  {
    f in s.users ==>
      && f in s.owner && s.owner[f] == UserPage
      && f in s.mem && s.mem[f].Data?
      && f < |s.rc| && s.rc[f] == |s.users[f]| + (if held == Some(f) then 1 else 0)
      && (s.users[f] == {} ==> held == Some(f))
      && LeavesOf(s.leaf, f, s.users[f])
  }

  ghost predicate UsersOk(s: Sys, held: Option<nat>)
  {
    && (forall f {:trigger UserOk(s, f, held)} :: UserOk(s, f, held))
    && (held.Some? ==> held.value in s.users)
  }

  ghost predicate FrameOk(s: Sys, f: nat)
  {
    && (f in s.owner <==> f < |s.rc| && f !in s.free)
    && (f in s.free ==> f < |s.rc| && s.rc[f] == 0)
    && (f in s.owner && s.owner[f].TableAt? ==>
          && s.owner[f].path in s.tree && s.tree[s.owner[f].path] == f
          && (IsPrivate(s.owner[f].path) ==> s.rc[f] == 1))
    && (f in s.owner && s.owner[f].UserPage? ==> f in s.users)
  }

  ghost predicate FramesOk(s: Sys)
  {
    forall f {:trigger FrameOk(s, f)} :: FrameOk(s, f)
  }

  ghost predicate Inv(s: Sys, held: Option<nat>)
  {
    && NodesOk(s.mem, s.tree, s.owner)
    && EntriesOk(s.mem, s.tree, s.leaf)
    && OpensOk(s.mem, s.tree, s.leaf)
    && LeavesOk(s.tree, s.leaf, s.users)
    && UsersOk(s, held)
    && FramesOk(s)
  }

  function SetEntry(mem: map<nat, Content>, t: nat, i: nat, e: Pte): map<nat, Content>
    requires t in mem && mem[t].Table? && i < |mem[t].entries|
  {
    mem[t := Table(mem[t].entries[i := e])]
  }

  /** Only entry i of the table at p leads to Sub(p, i). */
  lemma ChildOnly(p: Path, i: nat, q: Path, j: nat)
    requires IsPos(p) && Child(p, i) == Sub(p, i)
    ensures Child(q, j) == Sub(p, i) <==> q == p && j == i
  {}

  // ---- Linking a new, empty table ----

  /** A fresh empty table in frame f, linked from entry i of the table at p. */
  ghost function LinkTable(s: Sys, p: Path, i: nat, f: nat): Sys
    requires p in s.tree && NodeOk(s.mem, s.tree, s.owner, p) && i < ENTRIES && f < |s.rc| && f != s.tree[p]
  {
    var c := Sub(p, i);
    var e := Pte(true, true, false, false, false, false, f);
    s.(mem := SetEntry(s.mem[f := EmptyTable()], s.tree[p], i, e),
       free := s.free - {f}, rc := s.rc[f := 1],
       tree := s.tree[c := f], owner := s.owner[f := TableAt(c)])
  }

  ghost predicate CanLink(s: Sys, p: Path, i: nat, f: nat, held: Option<nat>)
  {
    && Inv(s, held) && p in s.tree && i < ENTRIES && f in s.free
    && Depth(p) < 3 && Child(p, i) == Sub(p, i) && IsPos(Sub(p, i)) && (p.Root? ==> i != 0)
    && EntryAt(s.mem, s.tree, p, i) == NO_PTE && Opened(s.mem, s.tree, p)
    && NodeOk(s.mem, s.tree, s.owner, p) && FrameOk(s, f)
    && EntryOk(s.mem, s.tree, s.leaf, p, i)
  }

  lemma LinkNode(s: Sys, p: Path, i: nat, f: nat, held: Option<nat>, q: Path)
    requires CanLink(s, p, i, f, held)
    ensures var s' := LinkTable(s, p, i, f); NodeOk(s'.mem, s'.tree, s'.owner, q)
  {
    assert NodeOk(s.mem, s.tree, s.owner, q);
  }

  lemma LinkEntry(s: Sys, p: Path, i: nat, f: nat, held: Option<nat>, q: Path, j: nat)
    requires CanLink(s, p, i, f, held)
    ensures var s' := LinkTable(s, p, i, f); EntryOk(s'.mem, s'.tree, s'.leaf, q, j)
  {
    var s' := LinkTable(s, p, i, f);
    var c := Sub(p, i);
    ChildOnly(p, i, q, j);
    if q in s'.tree && j < ENTRIES {
      if q == c {
        assert EntryAt(s'.mem, s'.tree, q, j) == NO_PTE;
        assert NodeOk(s.mem, s.tree, s.owner, Child(c, j));
        assert LeafOk(s.tree, s.leaf, s.users, Child(c, j));
      } else {
        assert NodeOk(s.mem, s.tree, s.owner, q);
        assert EntryOk(s.mem, s.tree, s.leaf, q, j);
      }
    }
  }

  lemma LinkOpen(s: Sys, p: Path, i: nat, f: nat, held: Option<nat>, q: Path)
    requires CanLink(s, p, i, f, held)
    ensures var s' := LinkTable(s, p, i, f); OpenOk(s'.mem, s'.tree, s'.leaf, q)
  {
    var c := Sub(p, i);
    assert OpenOk(s.mem, s.tree, s.leaf, q);
    assert NodeOk(s.mem, s.tree, s.owner, q) && LeafOk(s.tree, s.leaf, s.users, q);
    if q.Sub? {
      assert NodeOk(s.mem, s.tree, s.owner, q.up);
      if q.up.Sub? { assert NodeOk(s.mem, s.tree, s.owner, q.up.up); }
    }
    if p.Sub? { assert NodeOk(s.mem, s.tree, s.owner, p.up); }
  }

  lemma LinkTableInv(s: Sys, p: Path, i: nat, f: nat, held: Option<nat>)
    requires CanLink(s, p, i, f, held)
    ensures Inv(LinkTable(s, p, i, f), held)
  {
    var s' := LinkTable(s, p, i, f);
    forall q ensures NodeOk(s'.mem, s'.tree, s'.owner, q) { LinkNode(s, p, i, f, held, q); }
    forall q, j: nat ensures EntryOk(s'.mem, s'.tree, s'.leaf, q, j) { LinkEntry(s, p, i, f, held, q, j); }
    forall q ensures OpenOk(s'.mem, s'.tree, s'.leaf, q) { LinkOpen(s, p, i, f, held, q); }
    forall l ensures LeafOk(s'.tree, s'.leaf, s'.users, l) { assert LeafOk(s.tree, s.leaf, s.users, l); }
    forall g ensures UserOk(s', g, held) { assert UserOk(s, g, held); }
    forall g ensures FrameOk(s', g) { assert FrameOk(s, g); }
  }

  // ---- Opening a link to user accesses ----

  ghost function OpenLink(s: Sys, p: Path, i: nat): Sys
    requires p in s.tree && NodeOk(s.mem, s.tree, s.owner, p) && i < ENTRIES
  {
    s.(mem := SetEntry(s.mem, s.tree[p], i, EntryAt(s.mem, s.tree, p, i).(user := true)))
  }

  ghost predicate CanOpen(s: Sys, p: Path, i: nat, held: Option<nat>)
  {
    && Inv(s, held) && p in s.tree && IsPrivate(p) && i < ENTRIES && Depth(p) < 3
    && Child(p, i) == Sub(p, i) && Sub(p, i) in s.tree
    && NodeOk(s.mem, s.tree, s.owner, p) && EntryOk(s.mem, s.tree, s.leaf, p, i)
  }

  lemma OpenLinkInv(s: Sys, p: Path, i: nat, held: Option<nat>)
    requires CanOpen(s, p, i, held)
    ensures Inv(OpenLink(s, p, i), held) && Opened(OpenLink(s, p, i).mem, s.tree, Sub(p, i))
  {
    var s' := OpenLink(s, p, i);
    forall q ensures NodeOk(s'.mem, s'.tree, s'.owner, q) { assert NodeOk(s.mem, s.tree, s.owner, q); }
    forall q, j: nat ensures EntryOk(s'.mem, s'.tree, s'.leaf, q, j) {
      assert NodeOk(s.mem, s.tree, s.owner, q);
      assert EntryOk(s.mem, s.tree, s.leaf, q, j);
    }
    forall q ensures OpenOk(s'.mem, s'.tree, s'.leaf, q) {
      assert OpenOk(s.mem, s.tree, s.leaf, q);
      if q.Sub? && q.up.Sub? { assert NodeOk(s.mem, s.tree, s.owner, q.up.up); }
    }
    forall g ensures UserOk(s', g, held) { assert UserOk(s, g, held); }
    forall g ensures FrameOk(s', g) { assert FrameOk(s, g); }
  }

  // ---- Writing a leaf ----

  ghost function PutLeaf(s: Sys, l: Path, e: Pte): Sys
    requires l.Sub? && l.up in s.tree && NodeOk(s.mem, s.tree, s.owner, l.up) && l.idx < ENTRIES
  {
    s.(mem := SetEntry(s.mem, s.tree[l.up], l.idx, e),
       leaf := if e.present then s.leaf[l := e] else s.leaf - {l})
  }

  ghost predicate CanPut(s: Sys, l: Path, e: Pte)
  {
    && NodesOk(s.mem, s.tree, s.owner) && EntriesOk(s.mem, s.tree, s.leaf) && OpensOk(s.mem, s.tree, s.leaf)
    && LeavesOk(s.tree, s.leaf, s.users)
    && l.Sub? && l.up in s.tree && Depth(l) == 4 && l.idx < ENTRIES
    && NodeOk(s.mem, s.tree, s.owner, l.up) && EntryOk(s.mem, s.tree, s.leaf, l.up, l.idx)
    && (if e.present then !e.huge else e == NO_PTE)
    && (e.present && IsPrivate(l) ==> Opened(s.mem, s.tree, l.up))
  }

  lemma PutOpen(s: Sys, l: Path, e: Pte, q: Path)
    requires CanPut(s, l, e)
    ensures var s' := PutLeaf(s, l, e); OpenOk(s'.mem, s'.tree, s'.leaf, q)
  {
    assert OpenOk(s.mem, s.tree, s.leaf, q);
    assert NodeOk(s.mem, s.tree, s.owner, q) && LeafOk(s.tree, s.leaf, s.users, q);
    assert q.Sub? && q.up.Sub? ==> Depth(q) == Depth(q.up.up) + 2;
    if q.Sub? && q.up.Sub? {
      assert NodeOk(s.mem, s.tree, s.owner, q.up) && NodeOk(s.mem, s.tree, s.owner, q.up.up);
    }
  }

  lemma PutEntry(s: Sys, l: Path, e: Pte, q: Path, j: nat)
    requires CanPut(s, l, e)
    ensures var s' := PutLeaf(s, l, e);
      NodeOk(s'.mem, s'.tree, s'.owner, q) && EntryOk(s'.mem, s'.tree, s'.leaf, q, j)
  {
    assert Depth(l.up.up) == 2;
    ChildOnly(l.up, l.idx, q, j);
    assert NodeOk(s.mem, s.tree, s.owner, q);
    assert EntryOk(s.mem, s.tree, s.leaf, q, j);
  }

  lemma PutLeafTables(s: Sys, l: Path, e: Pte)
    requires CanPut(s, l, e)
    ensures var s' := PutLeaf(s, l, e);
      NodesOk(s'.mem, s'.tree, s'.owner) && EntriesOk(s'.mem, s'.tree, s'.leaf) && OpensOk(s'.mem, s'.tree, s'.leaf)
  {
    var s' := PutLeaf(s, l, e);
    forall q ensures OpenOk(s'.mem, s'.tree, s'.leaf, q) { PutOpen(s, l, e, q); }
    forall q, j: nat ensures EntryOk(s'.mem, s'.tree, s'.leaf, q, j) { PutEntry(s, l, e, q, j); }
    forall q ensures NodeOk(s'.mem, s'.tree, s'.owner, q) { PutEntry(s, l, e, q, 0); }
  }

  /** The frame a leaf slot refers to, before and after the write. */
  function FrameIn(leaf: map<Path, Pte>, l: Path): Option<nat>
  {
    if l in leaf then Some(leaf[l].frame) else None
  }

  function FrameOf(e: Pte): Option<nat>
  {
    if e.present then Some(e.frame) else None
  }

  /** The user leaf l now holds e: its old frame loses a leaf, its new one gains it. */
  ghost function SetLeaf(s: Sys, l: Path, e: Pte): Sys
    requires l.Sub? && l.up in s.tree && NodeOk(s.mem, s.tree, s.owner, l.up) && l.idx < ENTRIES
  {
    var before := FrameIn(s.leaf, l);
    var u := if before.Some? && before.value in s.users
             then s.users[before.value := s.users[before.value] - {l}] else s.users;
    PutLeaf(s, l, e).(users :=
      if e.present && e.frame in u then u[e.frame := u[e.frame] + {l}] else u)
  }

  /** References move with the leaf: the caller gives up its hold on the new
      frame and is left with a hold on the old one. */
  ghost function HeldBefore(s: Sys, l: Path, e: Pte, held: Option<nat>): Option<nat>
  {
    if FrameIn(s.leaf, l) == FrameOf(e) then held else FrameOf(e)
  }

  ghost function HeldAfter(s: Sys, l: Path, e: Pte, held: Option<nat>): Option<nat>
  {
    if FrameIn(s.leaf, l) == FrameOf(e) then held else FrameIn(s.leaf, l)
  }

  ghost predicate CanSet(s: Sys, l: Path, e: Pte, held: Option<nat>)
  {
    && Inv(s, HeldBefore(s, l, e, held))
    && CanPut(s, l, e) && IsPos(l) && IsPrivate(l)
    && LeafOk(s.tree, s.leaf, s.users, l)
    && (e.present ==>
          && e.user && e.frame in s.users
          && (e.write ==> s.users[e.frame] <= {l})
          && (forall m :: m in s.users[e.frame] && m != l ==>
                m in s.leaf && !s.leaf[m].write && SpaceOf(m) != SpaceOf(l)))
  }

  lemma SetLeafHere(s: Sys, l: Path, e: Pte)
    requires CanPut(s, l, e) && IsPos(l) && IsPrivate(l) && l.up in s.tree
    requires e.present ==> e.user && e.frame in s.users && (e.write ==> s.users[e.frame] <= {l})
    ensures var s' := SetLeaf(s, l, e); LeafOk(s'.tree, s'.leaf, s'.users, l)
  {
  }

  lemma SetLeafElsewhere(s: Sys, l: Path, e: Pte, m: Path)
    requires CanPut(s, l, e) && m != l && LeafOk(s.tree, s.leaf, s.users, m)
    requires e.present ==> e.frame in s.users
    requires e.present ==> forall k :: k in s.users[e.frame] && k != l ==> k in s.leaf && !s.leaf[k].write
    ensures var s' := SetLeaf(s, l, e); LeafOk(s'.tree, s'.leaf, s'.users, m)
  {
  }

  lemma SetLeafLeaf(s: Sys, l: Path, e: Pte, held: Option<nat>, m: Path)
    requires CanSet(s, l, e, held)
    ensures var s' := SetLeaf(s, l, e); LeafOk(s'.tree, s'.leaf, s'.users, m)
  {
    assert LeafOk(s.tree, s.leaf, s.users, m);
    if e.present { assert UserOk(s, e.frame, HeldBefore(s, l, e, held)); }
    hide Inv, SetLeaf, LeafOk;
    if m == l { SetLeafHere(s, l, e); } else { SetLeafElsewhere(s, l, e, m); }
  }

  lemma SetLeafUsers(s: Sys, l: Path, e: Pte, held: Option<nat>, f: nat)
    requires l.Sub? && l.up in s.tree && NodeOk(s.mem, s.tree, s.owner, l.up) && l.idx < ENTRIES
    requires IsPrivate(l) && LeafOk(s.tree, s.leaf, s.users, l)
    requires f in s.users && UserOk(s, f, HeldBefore(s, l, e, held))
    ensures f in SetLeaf(s, l, e).users
    ensures l in s.users[f] <==> FrameIn(s.leaf, l) == Some(f)
    ensures SetLeaf(s, l, e).users[f] ==
            if FrameIn(s.leaf, l) == FrameOf(e) then s.users[f]
            else if FrameIn(s.leaf, l) == Some(f) then s.users[f] - {l}
            else if FrameOf(e) == Some(f) then s.users[f] + {l}
            else s.users[f]
  {
  }

  lemma SetLeafLeavesOf(s: Sys, l: Path, e: Pte, held: Option<nat>, f: nat)
    requires CanSet(s, l, e, held) && f in s.users && f in SetLeaf(s, l, e).users
    ensures LeavesOf(SetLeaf(s, l, e).leaf, f, SetLeaf(s, l, e).users[f])
  {
    assert UserOk(s, f, HeldBefore(s, l, e, held));
    SetLeafUsers(s, l, e, held, f);
  }

  lemma SetLeafUser(s: Sys, l: Path, e: Pte, held: Option<nat>, f: nat)
    requires CanSet(s, l, e, held)
    ensures UserOk(SetLeaf(s, l, e), f, HeldAfter(s, l, e, held))
  {
    if f in SetLeaf(s, l, e).users {
      assert UserOk(s, f, HeldBefore(s, l, e, held));
      SetLeafUsers(s, l, e, held, f);
      SetLeafLeavesOf(s, l, e, held, f);
    }
  }

  lemma SetLeafInv(s: Sys, l: Path, e: Pte, held: Option<nat>)
    requires CanSet(s, l, e, held)
    ensures Inv(SetLeaf(s, l, e), HeldAfter(s, l, e, held))
  {
    var s' := SetLeaf(s, l, e);
    PutLeafTables(s, l, e);
    forall m ensures LeafOk(s'.tree, s'.leaf, s'.users, m) { SetLeafLeaf(s, l, e, held, m); }
    forall f ensures UserOk(s', f, HeldAfter(s, l, e, held)) { SetLeafUser(s, l, e, held, f); }
    forall f ensures FrameOk(s', f) { assert FrameOk(s, f); }
  }

  /** The shared leaf l now holds e. User frames are not concerned. */
  lemma PutSharedLeafInv(s: Sys, l: Path, e: Pte, held: Option<nat>)
    requires Inv(s, held) && CanPut(s, l, e) && IsPos(l) && !IsPrivate(l) && !e.user
    ensures Inv(PutLeaf(s, l, e), held)
  {
    var s' := PutLeaf(s, l, e);
    PutLeafTables(s, l, e);
    forall m ensures LeafOk(s'.tree, s'.leaf, s'.users, m) { assert LeafOk(s.tree, s.leaf, s.users, m); }
    forall f ensures UserOk(s', f, held) {
      assert UserOk(s, f, held);
    }
    forall f ensures FrameOk(s', f) { assert FrameOk(s, f); }
  }

  // ---- Removing a table that has no children left ----

  ghost predicate Childless(s: Sys, c: Path)
  {
    forall q :: q in s.tree || q in s.leaf ==> !(q.Sub? && q.up == c)
  }

  /** The private table at c is unlinked and its frame freed. */
  ghost function RemoveTable(s: Sys, c: Path): Sys
    requires c in s.tree && s.tree[c] < |s.rc|
    requires c.Sub? ==> c.up in s.tree && NodeOk(s.mem, s.tree, s.owner, c.up) && c.idx < ENTRIES
  {
    var f := s.tree[c];
    s.(mem := if c.Sub? then SetEntry(s.mem, s.tree[c.up], c.idx, NO_PTE) else s.mem,
       free := s.free + {f}, rc := s.rc[f := 0],
       tree := s.tree - {c}, owner := s.owner - {f})
  }

  ghost predicate CanRemove(s: Sys, c: Path, held: Option<nat>)
  {
    && Inv(s, held) && c in s.tree && IsPrivate(c) && Childless(s, c)
    && NodeOk(s.mem, s.tree, s.owner, c) && FrameOk(s, s.tree[c])
    && (c.Sub? ==> c.up in s.tree && c.idx < ENTRIES)
    && (c.Sub? ==> NodeOk(s.mem, s.tree, s.owner, c.up) && EntryOk(s.mem, s.tree, s.leaf, c.up, c.idx))
  }

  lemma RemoveNode(s: Sys, c: Path, held: Option<nat>, q: Path)
    requires CanRemove(s, c, held)
    ensures var s' := RemoveTable(s, c); NodeOk(s'.mem, s'.tree, s'.owner, q)
  {
    assert NodeOk(s.mem, s.tree, s.owner, q);
  }

  lemma RemoveEntry(s: Sys, c: Path, held: Option<nat>, q: Path, j: nat)
    requires CanRemove(s, c, held)
    ensures var s' := RemoveTable(s, c); EntryOk(s'.mem, s'.tree, s'.leaf, q, j)
  {
    var s' := RemoveTable(s, c);
    if q in s'.tree && j < ENTRIES {
      assert NodeOk(s.mem, s.tree, s.owner, q);
      assert EntryOk(s.mem, s.tree, s.leaf, q, j);
      if c.Sub? {
        ChildOnly(c.up, c.idx, q, j);
      }
    }
  }

  lemma RemoveOpen(s: Sys, c: Path, held: Option<nat>, q: Path)
    requires CanRemove(s, c, held)
    ensures var s' := RemoveTable(s, c); OpenOk(s'.mem, s'.tree, s'.leaf, q)
  {
    assert OpenOk(s.mem, s.tree, s.leaf, q);
    assert NodeOk(s.mem, s.tree, s.owner, q) && LeafOk(s.tree, s.leaf, s.users, q);
    if q.Sub? && q.up.Sub? {
      assert NodeOk(s.mem, s.tree, s.owner, q.up) && NodeOk(s.mem, s.tree, s.owner, q.up.up);
      if c.Sub? { assert NodeOk(s.mem, s.tree, s.owner, c.up); }
    }
  }

  lemma RemoveTableInv(s: Sys, c: Path, held: Option<nat>)
    requires CanRemove(s, c, held)
    ensures Inv(RemoveTable(s, c), held)
  {
    var s' := RemoveTable(s, c);
    forall q ensures NodeOk(s'.mem, s'.tree, s'.owner, q) { RemoveNode(s, c, held, q); }
    forall q, j: nat ensures EntryOk(s'.mem, s'.tree, s'.leaf, q, j) { RemoveEntry(s, c, held, q, j); }
    forall q ensures OpenOk(s'.mem, s'.tree, s'.leaf, q) { RemoveOpen(s, c, held, q); }
    forall l ensures LeafOk(s'.tree, s'.leaf, s'.users, l) { assert LeafOk(s.tree, s.leaf, s.users, l); }
    forall g ensures UserOk(s', g, held) { assert UserOk(s, g, held); }
    forall g ensures FrameOk(s', g) {
      assert FrameOk(s, g);
      if g in s.owner && s.owner[g].TableAt? { assert NodeOk(s.mem, s.tree, s.owner, s.owner[g].path); }
    }
  }

  // ---- User page frames ----

  /** A free frame becomes a user page that only the running operation holds. */
  ghost function HoldNew(s: Sys, f: nat, bytes: Page): Sys
    requires f < |s.rc|
  {
    s.(mem := s.mem[f := Data(bytes)], free := s.free - {f}, rc := s.rc[f := 1],
       owner := s.owner[f := UserPage], users := s.users[f := {}])
  }

  lemma HoldNewInv(s: Sys, f: nat, bytes: Page)
    requires Inv(s, None) && f in s.free && f < |s.rc|
    ensures Inv(HoldNew(s, f, bytes), Some(f))
  {
    var s' := HoldNew(s, f, bytes);
    assert FrameOk(s, f);
    assert UserOk(s, f, None);
    forall q ensures NodeOk(s'.mem, s'.tree, s'.owner, q) { assert NodeOk(s.mem, s.tree, s.owner, q); }
    forall q ensures OpenOk(s'.mem, s'.tree, s'.leaf, q) {
      assert OpenOk(s.mem, s.tree, s.leaf, q);
      if q.Sub? && q.up.Sub? { assert NodeOk(s.mem, s.tree, s.owner, q.up.up); }
    }
    forall q, j: nat ensures EntryOk(s'.mem, s'.tree, s'.leaf, q, j) {
      assert NodeOk(s.mem, s.tree, s.owner, q);
      assert EntryOk(s.mem, s.tree, s.leaf, q, j);
    }
    forall l ensures LeafOk(s'.tree, s'.leaf, s'.users, l) { assert LeafOk(s.tree, s.leaf, s.users, l); }
    forall g ensures UserOk(s', g, Some(f)) { assert UserOk(s, g, None); }
    forall g ensures FrameOk(s', g) { assert FrameOk(s, g); }
  }

  lemma HoldRefInv(s: Sys, f: nat)
    requires Inv(s, None) && f in s.users && f < |s.rc|
    ensures Inv(s.(rc := s.rc[f := s.rc[f] + 1]), Some(f))
  {
    var s' := s.(rc := s.rc[f := s.rc[f] + 1]);
    forall g ensures UserOk(s', g, Some(f)) { assert UserOk(s, g, None); }
    forall g ensures FrameOk(s', g) { assert FrameOk(s, g); assert UserOk(s, f, None); }
  }

  /** The held reference is dropped; a frame without leaves becomes free. */
  ghost function DropHeld(s: Sys, f: nat): Sys
    requires f < |s.rc| && s.rc[f] > 0
  {
    var s' := s.(rc := s.rc[f := s.rc[f] - 1]);
    if s.rc[f] == 1 then
      s'.(free := s.free + {f}, owner := s.owner - {f}, users := s.users - {f})
    else s'
  }

  lemma DropHeldInv(s: Sys, f: nat)
    requires Inv(s, Some(f))
    ensures f < |s.rc| && s.rc[f] > 0 && f !in s.free && Inv(DropHeld(s, f), None)
  {
    assert UserOk(s, f, Some(f));
    assert FrameOk(s, f);
    var s' := DropHeld(s, f);
    forall q ensures NodeOk(s'.mem, s'.tree, s'.owner, q) { assert NodeOk(s.mem, s.tree, s.owner, q); }
    forall l ensures LeafOk(s'.tree, s'.leaf, s'.users, l) { assert LeafOk(s.tree, s.leaf, s.users, l); }
    forall g ensures UserOk(s', g, None) { assert UserOk(s, g, Some(f)); }
    forall g ensures FrameOk(s', g) { assert FrameOk(s, g); }
  }

  /** The bytes of a user page change. */
  lemma WriteDataInv(s: Sys, f: nat, bytes: Page, held: Option<nat>)
    requires Inv(s, held) && f in s.users
    ensures Inv(s.(mem := s.mem[f := Data(bytes)]), held)
  {
    var s' := s.(mem := s.mem[f := Data(bytes)]);
    assert UserOk(s, f, held);
    forall q ensures NodeOk(s'.mem, s'.tree, s'.owner, q) { assert NodeOk(s.mem, s.tree, s.owner, q); }
    forall q ensures OpenOk(s'.mem, s'.tree, s'.leaf, q) {
      assert OpenOk(s.mem, s.tree, s.leaf, q);
      if q.Sub? && q.up.Sub? { assert NodeOk(s.mem, s.tree, s.owner, q.up.up); }
    }
    forall q, j: nat ensures EntryOk(s'.mem, s'.tree, s'.leaf, q, j) {
      assert NodeOk(s.mem, s.tree, s.owner, q);
      assert EntryOk(s.mem, s.tree, s.leaf, q, j);
    }
    forall g ensures UserOk(s', g, held) { assert UserOk(s, g, held); }
    forall g ensures FrameOk(s', g) { assert FrameOk(s, g); }
  }

  // ---- New address spaces ----

  /** Root r with the shared half and low table of cur; low has the identity window. */
  ghost predicate NewTables(s: Sys, cur: nat, low: nat, rt: seq<Pte>, lt: seq<Pte>)
  {
    && |rt| == ENTRIES && |lt| == ENTRIES
    && rt[0] == Pte(true, true, true, false, false, false, low)
    && (forall i :: 1 <= i < 256 ==> rt[i] == NO_PTE)
    && (forall i :: 256 <= i < ENTRIES ==> rt[i] == EntryAt(s.mem, s.tree, Root(Private(cur)), i))
    && lt[0] == EntryAt(s.mem, s.tree, Sub(Root(Private(cur)), 0), 0)
    && (forall i :: 1 <= i < ENTRIES ==> lt[i] == NO_PTE)
  }

  ghost function NewSpace(s: Sys, r: nat, low: nat, rt: seq<Pte>, lt: seq<Pte>): Sys
    requires r < |s.rc| && low < |s.rc|
  {
    var p := Root(Private(r));
    s.(mem := s.mem[r := Table(rt)][low := Table(lt)],
       free := s.free - {r} - {low}, rc := s.rc[r := 1][low := 1],
       tree := s.tree[p := r][Sub(p, 0) := low],
       owner := s.owner[r := TableAt(p)][low := TableAt(Sub(p, 0))])
  }

  ghost predicate CanCreate(s: Sys, cur: nat, r: nat, low: nat, rt: seq<Pte>, lt: seq<Pte>)
  {
    && Inv(s, None) && NewTables(s, cur, low, rt, lt)
    && r in s.free && low in s.free && r != low && FrameOk(s, r) && FrameOk(s, low)
    && Root(Private(cur)) in s.tree && Sub(Root(Private(cur)), 0) in s.tree
  }

  lemma NewSpaceFresh(s: Sys, r: nat, q: Path)
    requires Inv(s, None) && r in s.free && SpaceOf(q) == Private(r)
    ensures q !in s.tree && q !in s.leaf
    decreases q
  {
    assert FrameOk(s, r);
    assert NodeOk(s.mem, s.tree, s.owner, q);
    assert LeafOk(s.tree, s.leaf, s.users, q);
    if q.Sub? { NewSpaceFresh(s, r, q.up); }
  }

  lemma NewNode(s: Sys, cur: nat, r: nat, low: nat, rt: seq<Pte>, lt: seq<Pte>, q: Path)
    requires CanCreate(s, cur, r, low, rt, lt)
    ensures var s' := NewSpace(s, r, low, rt, lt); NodeOk(s'.mem, s'.tree, s'.owner, q)
  {
    assert NodeOk(s.mem, s.tree, s.owner, q);
  }

  lemma NewRootEntry(s: Sys, cur: nat, r: nat, low: nat, rt: seq<Pte>, lt: seq<Pte>, j: nat)
    requires CanCreate(s, cur, r, low, rt, lt) && j < ENTRIES
    ensures var s' := NewSpace(s, r, low, rt, lt); EntryMeans(s'.tree, s'.leaf, Root(Private(r)), j, rt[j])
  {
    hide Inv;
    var p := Root(Private(r));
    assert SpaceOf(p) == Private(r) && Depth(p) == 0;
    NewSpaceFresh(s, r, Sub(p, j));
    if j >= 256 {
      var q := Root(Private(cur));
      assert EntryOk(s.mem, s.tree, s.leaf, q, j) by { InvEntry(s, q, j); }
      assert Child(p, j) == Child(q, j) == Sub(Root(Shared), j) && SpaceOf(Sub(Root(Shared), j)) == Shared;
      assert Depth(q) == 0;
    }
  }

  lemma NewLowEntry(s: Sys, cur: nat, r: nat, low: nat, rt: seq<Pte>, lt: seq<Pte>, j: nat)
    requires CanCreate(s, cur, r, low, rt, lt) && j < ENTRIES
    ensures var s' := NewSpace(s, r, low, rt, lt); EntryMeans(s'.tree, s'.leaf, Sub(Root(Private(r)), 0), j, lt[j])
  {
    hide Inv;
    var p := Sub(Root(Private(r)), 0);
    LowPlace(r, j);
    NewSpaceFresh(s, r, Sub(p, j));
    if j == 0 {
      var q := Sub(Root(Private(cur)), 0);
      LowPlace(cur, j);
      assert EntryOk(s.mem, s.tree, s.leaf, q, j) by { InvEntry(s, q, j); }
      assert Child(p, j) == Child(q, j) == Sub(Sub(Root(Shared), 0), 0);
      assert SpaceOf(Sub(Root(Shared), 0)) == Shared;
    }
  }

  lemma LowPlace(r: nat, j: nat)
    ensures var p := Sub(Root(Private(r)), 0);
      SpaceOf(p) == Private(r) && SpaceOf(Sub(p, j)) == Private(r) && Depth(p) == 1
  {
    var p := Root(Private(r));
    assert SpaceOf(p) == Private(r) && Depth(p) == 0;
    assert SpaceOf(Sub(p, 0)) == SpaceOf(p) && Depth(Sub(p, 0)) == Depth(p) + 1;
    assert SpaceOf(Sub(Sub(p, 0), j)) == SpaceOf(Sub(p, 0));
  }

  lemma InvEntry(s: Sys, q: Path, j: nat)
    requires Inv(s, None)
    ensures EntryOk(s.mem, s.tree, s.leaf, q, j) && NodeOk(s.mem, s.tree, s.owner, q)
  {}

  lemma NewEntry(s: Sys, cur: nat, r: nat, low: nat, rt: seq<Pte>, lt: seq<Pte>, q: Path, j: nat)
    requires CanCreate(s, cur, r, low, rt, lt)
    ensures var s' := NewSpace(s, r, low, rt, lt); EntryOk(s'.mem, s'.tree, s'.leaf, q, j)
  {
    hide Inv;
    var p := Root(Private(r));
    if j < ENTRIES {
      if q == p {
        NewRootEntry(s, cur, r, low, rt, lt, j);
      } else if q == Sub(p, 0) {
        NewLowEntry(s, cur, r, low, rt, lt, j);
      } else {
        NewOldEntry(s, cur, r, low, rt, lt, q, j);
      }
    }
  }

  lemma NewOldEntry(s: Sys, cur: nat, r: nat, low: nat, rt: seq<Pte>, lt: seq<Pte>, q: Path, j: nat)
    requires CanCreate(s, cur, r, low, rt, lt) && j < ENTRIES && q != Root(Private(r)) && q != Sub(Root(Private(r)), 0)
    ensures var s' := NewSpace(s, r, low, rt, lt); EntryOk(s'.mem, s'.tree, s'.leaf, q, j)
  {
    hide Inv;
    var p := Root(Private(r));
    InvEntry(s, q, j);
    NewSpaceFresh(s, r, p);
    assert SpaceOf(Sub(p, 0)) == Private(r);
    NewSpaceFresh(s, r, Sub(p, 0));
    if q in s.tree && SpaceOf(q) == Private(r) { NewSpaceFresh(s, r, q); }
  }

  lemma NewOpen(s: Sys, cur: nat, r: nat, low: nat, rt: seq<Pte>, lt: seq<Pte>, q: Path)
    requires CanCreate(s, cur, r, low, rt, lt)
    ensures var s' := NewSpace(s, r, low, rt, lt); OpenOk(s'.mem, s'.tree, s'.leaf, q)
  {
    hide Inv;
    var p := Root(Private(r));
    var s' := NewSpace(s, r, low, rt, lt);
    if SpaceOf(q) == Private(r) { NewSpaceFresh(s, r, q); }
    if (q in s'.tree || q in s'.leaf) && q.Sub? && IsPrivate(q) && q.up.Sub? {
      assert SpaceOf(Sub(p, 0)) == Private(r) && SpaceOf(p) == Private(r);
      InvOpen(s, q);
      assert q.up.up != p && q.up.up != Sub(p, 0);
    }
  }

  /** The table that links to the one above q. */
  lemma InvOpen(s: Sys, q: Path)
    requires Inv(s, None) && (q in s.tree || q in s.leaf) && q.Sub? && IsPrivate(q) && q.up.Sub?
    ensures OpenOk(s.mem, s.tree, s.leaf, q)
    ensures q.up.up in s.tree && NodeOk(s.mem, s.tree, s.owner, q.up.up) && SpaceOf(q.up.up) == SpaceOf(q)
  {
    assert OpenOk(s.mem, s.tree, s.leaf, q);
    assert NodeOk(s.mem, s.tree, s.owner, q) && LeafOk(s.tree, s.leaf, s.users, q);
    assert SpaceOf(q) == SpaceOf(q.up) == SpaceOf(q.up.up);
    assert q.up in s.tree by { assert !IsSharedTop(q); }
    assert NodeOk(s.mem, s.tree, s.owner, q.up) && NodeOk(s.mem, s.tree, s.owner, q.up.up);
  }

  lemma NewSpaceInv(s: Sys, cur: nat, r: nat, low: nat, rt: seq<Pte>, lt: seq<Pte>)
    requires CanCreate(s, cur, r, low, rt, lt)
    ensures Inv(NewSpace(s, r, low, rt, lt), None)
  {
    var s' := NewSpace(s, r, low, rt, lt);
    NewSpaceFresh(s, r, Root(Private(r)));
    NewSpaceFresh(s, r, Sub(Root(Private(r)), 0));
    forall q ensures NodeOk(s'.mem, s'.tree, s'.owner, q) { NewNode(s, cur, r, low, rt, lt, q); }
    forall q, j: nat ensures EntryOk(s'.mem, s'.tree, s'.leaf, q, j) { NewEntry(s, cur, r, low, rt, lt, q, j); }
    forall q ensures OpenOk(s'.mem, s'.tree, s'.leaf, q) { NewOpen(s, cur, r, low, rt, lt, q); }
    forall l ensures LeafOk(s'.tree, s'.leaf, s'.users, l) { assert LeafOk(s.tree, s.leaf, s.users, l); }
    forall g ensures UserOk(s', g, None) { assert UserOk(s, g, None); }
    forall g ensures FrameOk(s', g) { assert FrameOk(s, g); }
  }
}
