/** The virtual memory manager: page tables updated in place in physical memory. */
module Vmm {
  import opened Wrappers
  import opened Paging
  import opened Pmm
  import opened Tables
  import opened Views
  import opened Walk
  import opened Prune
  import opened Share

  datatype Flags = Flags(write: bool, user: bool, cow: bool, nx: bool)

  function LeafEntry(frame: nat, flags: Flags): Pte
  {
    Pte(true, flags.write, flags.user, false, flags.cow, flags.nx, frame)
  }

  /** Tables were only added, all on the way to l; nothing else changed. */
  ghost predicate Grown(s: Sys, s': Sys, l: Path)
  {
    && TreeGrown(s, s', l) && Balance(s') == Balance(s)
    && (forall f :: f in s.users && f in s.mem ==> f in s'.mem && s'.mem[f] == s.mem[f])
    && s'.leaf == s.leaf && s'.users == s.users && Maps(s') == Maps(s)
    && (IsPrivate(l) ==> Kept(s, s'))
  }

  ghost predicate TreeGrown(s: Sys, s': Sys, l: Path)
  {
    && (forall p :: p in s.tree ==> p in s'.tree && s'.tree[p] == s.tree[p])
    && (forall p :: p in s'.tree && p !in s.tree ==> Below(l, p))
  }

  lemma GrownPage(s: Sys, s': Sys, l: Path, e: Pte, held: Option<nat>)
    requires Grown(s, s', l) && Inv(s, held) && Inv(s', held)
    ensures IsPrivate(l) && e.frame in s.users ==> PageOf(s'.mem, e) == PageOf(s.mem, e)
  {
    assert UserOk(s, e.frame, held);
  }

  lemma GrownSame(s: Sys, l: Path)
    ensures Grown(s, s, l)
  {
    forall f ensures KeptFrame(s, s, f) {}
  }

  lemma GrownTrans(a: Sys, b: Sys, c: Sys, l: Path)
    requires Grown(a, b, l) && Grown(b, c, l)
    ensures Grown(a, c, l)
  {
    if IsPrivate(l) { KeptTrans(a, b, c); }
  }

  lemma LinkGrown(s: Sys, p: Path, i: nat, f: nat, held: Option<nat>, l: Path)
    requires Inv(s, held) && p in s.tree && i < ENTRIES && f in s.free
    requires Depth(p) < 3 && Child(p, i) == Sub(p, i) && IsPos(Sub(p, i)) && (p.Root? ==> i != 0)
    requires EntryAt(s.mem, s.tree, p, i) == NO_PTE && Below(l, Sub(p, i)) && IsPrivate(l) == IsPrivate(p)
    requires Opened(s.mem, s.tree, p)
    ensures CanLink(s, p, i, f, held)
    ensures Inv(LinkTable(s, p, i, f), held) && Grown(s, LinkTable(s, p, i, f), l)
  {
    assert NodeOk(s.mem, s.tree, s.owner, p);
    assert EntryOk(s.mem, s.tree, s.leaf, p, i);
    assert FrameOk(s, f);
    LinkTableInv(s, p, i, f, held);
    LinkView(s, p, i, f, held);
    forall g | g in s.users ensures g != s.tree[p] && g != f { assert UserOk(s, g, held); }
  }

  lemma OpenGrown(s: Sys, p: Path, i: nat, held: Option<nat>, l: Path)
    requires CanOpen(s, p, i, held)
    ensures Inv(OpenLink(s, p, i), held) && Grown(s, OpenLink(s, p, i), l)
    ensures Opened(OpenLink(s, p, i).mem, s.tree, Sub(p, i))
  {
    hide Kept;
    OpenLinkInv(s, p, i, held);
    OpenLinkView(s, p, i, held);
  }

  /** What a caller of vmm_map_page must provide: an unmapped page above the
      identity window; for a user page, a frame it holds that no writable leaf
      and no leaf of the same space maps. */
  ghost predicate CanMap(s: Sys, root: nat, virt: nat, e: Pte, held: Option<nat>)
  {
    var l := PathOf(root, virt);
    && HasSpace(s, root) && IDENTITY_TOP <= virt < VIRT_TOP && l !in s.leaf
    && e.present && !e.huge && (e.user <==> IsPrivate(l))
    && (!IsPrivate(l) ==> Pdpt(root, virt) in s.tree)
    && (IsPrivate(l) ==>
          && held == Some(e.frame) && e.frame in s.users
          && (e.write ==> s.users[e.frame] == {})
          && (forall m :: m in s.users[e.frame] ==>
                m in s.leaf && !s.leaf[m].write && SpaceOf(m) != SpaceOf(l)))
  }

  /** The state after a leaf write, for user and for shared leaves. */
  ghost function MapLeaf(s: Sys, l: Path, e: Pte): Sys
    requires l.Sub? && l.up in s.tree && NodeOk(s.mem, s.tree, s.owner, l.up) && l.idx < ENTRIES
  {
    if IsPrivate(l) then SetLeaf(s, l, e) else PutLeaf(s, l, e)
  }

  lemma MapLeafInv(s: Sys, root: nat, virt: nat, e: Pte, held: Option<nat>)
    requires Inv(s, held) && CanMap(s, root, virt, e, held) && Pt(root, virt) in s.tree
    requires Opened(s.mem, s.tree, Pt(root, virt))
    ensures var l := PathOf(root, virt);
      && l.Sub? && l.up == Pt(root, virt) && l.idx == PtIdx(virt) && NodeOk(s.mem, s.tree, s.owner, l.up)
      && var s' := MapLeaf(s, l, e);
      && Inv(s', if IsPrivate(l) then None else held)
      && s'.leaf == s.leaf[l := e] && s'.tree == s.tree && s'.free == s.free && s'.rc == s.rc
      && Maps(s') == (if IsPrivate(l) then Maps(s)[l := PageOf(s.mem, e)] else Maps(s))
      && (IsPrivate(l) ==> Kept(s, s'))
  {
    var l := PathOf(root, virt);
    PathShape(root, virt);
    Step(s, held, l.up, l.idx);
    assert NodeOk(s.mem, s.tree, s.owner, l.up);
    assert EntryOk(s.mem, s.tree, s.leaf, l.up, l.idx);
    assert LeafOk(s.tree, s.leaf, s.users, l);
    assert CanPut(s, l, e);
    if IsPrivate(l) {
      SetLeafInv(s, l, e, None);
      SetLeafView(s, l, e, None);
      SetLeafKept(s, l, e, None);
    } else {
      PutSharedLeafInv(s, l, e, held);
      PutSharedView(s, l, e, held);
    }
  }

  lemma UnmapLeafInv(s: Sys, root: nat, virt: nat)
    requires Inv(s, None) && HasSpace(s, root) && PathOf(root, virt) in s.leaf
    ensures var l := PathOf(root, virt);
      && l.Sub? && l.up == Pt(root, virt) && l.up in s.tree && l.idx == PtIdx(virt)
      && NodeOk(s.mem, s.tree, s.owner, l.up)
      && var s' := MapLeaf(s, l, NO_PTE);
      && Inv(s', if IsPrivate(l) then Some(s.leaf[l].frame) else None)
      && s'.leaf == s.leaf - {l} && s'.tree == s.tree && s'.free == s.free && s'.rc == s.rc
      && Maps(s') == Maps(s) - {l}
      && (IsPrivate(l) ==> Kept(s, s'))
  {
    var l := PathOf(root, virt);
    PathShape(root, virt);
    assert LeafOk(s.tree, s.leaf, s.users, l);
    Step(s, None, l.up, l.idx);
    assert NodeOk(s.mem, s.tree, s.owner, l.up);
    assert EntryOk(s.mem, s.tree, s.leaf, l.up, l.idx);
    assert CanPut(s, l, NO_PTE);
    if IsPrivate(l) {
      SetLeafInv(s, l, NO_PTE, None);
      SetLeafView(s, l, NO_PTE, None);
      SetLeafKept(s, l, NO_PTE, None);
    } else {
      PutSharedLeafInv(s, l, NO_PTE, None);
      PutSharedView(s, l, NO_PTE, None);
    }
  }

  /** How many leaves map frame f. */
  ghost function Sharers(s: Sys, f: nat): nat
  {
    if f in s.users then |s.users[f]| else 0
  }

  lemma OneSharer(s: Sys, l: Path, f: nat)
    requires f in s.users && l in s.users[f]
    ensures Sharers(s, f) > 0
  {}

  lemma OnlyMember<T>(a: set<T>, x: T)
    requires x in a && |a| <= 1
    ensures a == {x}
  {
    assert |a - {x}| == |a| - 1;
  }

  /** The leaf after a handled write fault. */
  function Writable(e: Pte, frame: nat): Pte
  {
    e.(write := true, cow := false, frame := frame)
  }

  lemma ReuseReady(s: Sys, l: Path)
    requires Inv(s, None) && l in s.leaf && IsPrivate(l) && s.leaf[l].cow
    requires s.leaf[l].frame < |s.rc| && s.rc[s.leaf[l].frame] <= 1
    ensures var e := Writable(s.leaf[l], s.leaf[l].frame);
      && CanSet(s, l, e, None) && HeldBefore(s, l, e, None) == None && HeldAfter(s, l, e, None) == None
  {
    var f := s.leaf[l].frame;
    assert LeafOk(s.tree, s.leaf, s.users, l) && OpenOk(s.mem, s.tree, s.leaf, l);
    assert UserOk(s, f, None);
    OnlyMember(s.users[f], l);
    Step(s, None, l.up, l.idx);
    assert NodeOk(s.mem, s.tree, s.owner, l.up) && EntryOk(s.mem, s.tree, s.leaf, l.up, l.idx);
  }

  /** A write fault on a copy-on-write leaf whose frame is not shared. */
  lemma FaultReuse(s: Sys, l: Path)
    requires Inv(s, None) && l in s.leaf && IsPrivate(l) && s.leaf[l].cow
    requires s.leaf[l].frame < |s.rc| && s.rc[s.leaf[l].frame] <= 1
    ensures CanSet(s, l, Writable(s.leaf[l], s.leaf[l].frame), None)
    ensures var s' := SetLeaf(s, l, Writable(s.leaf[l], s.leaf[l].frame));
      Inv(s', None) && Kept(s, s') && Pages(s') == Pages(s)
  {
    hide Kept, Inv;
    var e := Writable(s.leaf[l], s.leaf[l].frame);
    ReuseReady(s, l);
    SetLeafInv(s, l, e, None);
    SetLeafView(s, l, e, None);
    SetLeafKept(s, l, e, None);
  }

  lemma CopyReady(s: Sys, l: Path, n: nat)
    requires Inv(s, Some(n)) && l in s.leaf && IsPrivate(l) && s.leaf[l].cow && n in s.users && s.users[n] == {}
    ensures var e := Writable(s.leaf[l], n);
      && CanSet(s, l, e, None) && HeldBefore(s, l, e, None) == Some(n)
      && HeldAfter(s, l, e, None) == Some(s.leaf[l].frame)
  {
    assert LeafOk(s.tree, s.leaf, s.users, l) && OpenOk(s.mem, s.tree, s.leaf, l);
    assert UserOk(s, s.leaf[l].frame, Some(n));
    Step(s, Some(n), l.up, l.idx);
    assert NodeOk(s.mem, s.tree, s.owner, l.up) && EntryOk(s.mem, s.tree, s.leaf, l.up, l.idx);
  }

  /** A write fault on a shared copy-on-write leaf, served from a copy in frame n. */
  lemma FaultCopy(s: Sys, l: Path, n: nat)
    requires Inv(s, Some(n)) && l in s.leaf && IsPrivate(l) && s.leaf[l].cow
    requires n in s.users && s.users[n] == {} && BytesOf(s.mem, n) == BytesOf(s.mem, s.leaf[l].frame)
    ensures CanSet(s, l, Writable(s.leaf[l], n), None)
    ensures var s' := SetLeaf(s, l, Writable(s.leaf[l], n));
      Inv(s', Some(s.leaf[l].frame)) && Kept(s, s') && Pages(s') == Pages(s)
  {
    hide Kept, Inv;
    var e := Writable(s.leaf[l], n);
    CopyReady(s, l, n);
    SetLeafInv(s, l, e, None);
    SetLeafView(s, l, e, None);
    SetLeafKept(s, l, e, None);
  }

  /** The root r and its low table are new; nothing else is. */
  ghost predicate SpaceAdded(s: Sys, s': Sys, r: nat)
  {
    && s'.leaf == s.leaf
    && (forall p :: p in s.tree ==> p in s'.tree && s'.tree[p] == s.tree[p])
    && (forall p :: p in s'.tree && p !in s.tree ==> p == Root(Private(r)) || p == Sub(Root(Private(r)), 0))
    && (forall p :: p in s.tree || p in s.leaf ==> SpaceOf(p) != Private(r))
    && HasSpace(s', r) && Balance(s') == Balance(s)
  }

  /** The roots in use are the address spaces, and the current one is among them. */
  ghost predicate SpacesIn(s: Sys, spaces: set<nat>, cur: nat)
  {
    && cur in spaces
    && (forall r :: r in spaces ==> HasSpace(s, r))
    && (forall r :: Root(Private(r)) in s.tree ==> r in spaces)
  }

  lemma SpacesWith(s: Sys, s': Sys, spaces: set<nat>, cur: nat, r: nat)
    requires SpacesIn(s, spaces, cur) && SpaceAdded(s, s', r)
    ensures r !in spaces && SpacesIn(s', spaces + {r}, cur)
  {
    assert SpaceOf(Root(Private(r))) == Private(r);
  }

  /** The current root and its low table, as the machine reads them. */
  lemma CurrentTables(s: Sys, cur: nat)
    requires Inv(s, None) && HasSpace(s, cur)
    ensures cur in s.mem && s.mem[cur].Table? && |s.mem[cur].entries| == ENTRIES
    ensures forall i: nat :: i < ENTRIES ==> s.mem[cur].entries[i] == EntryAt(s.mem, s.tree, Root(Private(cur)), i)
    ensures s.mem[cur].entries[0].present
    ensures var low := s.mem[cur].entries[0].frame;
      && low in s.mem && s.mem[low].Table? && |s.mem[low].entries| == ENTRIES
      && s.mem[low].entries[0] == EntryAt(s.mem, s.tree, Sub(Root(Private(cur)), 0), 0)
  {
    var p := Root(Private(cur));
    assert NodeOk(s.mem, s.tree, s.owner, p) && NodeOk(s.mem, s.tree, s.owner, Sub(p, 0));
    assert EntryOk(s.mem, s.tree, s.leaf, p, 0);
  }

  lemma CreateSpace(s: Sys, cur: nat, r: nat, low: nat, rt: seq<Pte>, lt: seq<Pte>)
    requires Inv(s, None) && HasSpace(s, cur) && NewTables(s, cur, low, rt, lt)
    requires r in s.free && low in s.free && r != low
    ensures r < |s.rc| && low < |s.rc|
    ensures var s' := NewSpace(s, r, low, rt, lt);
      Inv(s', None) && Maps(s') == Maps(s) && Kept(s, s') && SpaceAdded(s, s', r)
  {
    assert FrameOk(s, r) && FrameOk(s, low);
    NewSpaceInv(s, cur, r, low, rt, lt);
    NewSpaceView(s, cur, r, low, rt, lt);
    forall p | p in s.tree || p in s.leaf ensures SpaceOf(p) != Private(r) {
      if SpaceOf(p) == Private(r) { NewSpaceFresh(s, r, p); }
    }
    var p := Root(Private(r));
    assert SpaceOf(p) == Private(r) && SpaceOf(Sub(p, 0)) == Private(r);
    assert p !in s.tree && Sub(p, 0) !in s.tree;
    assert |s.free - {r} - {low}| == |s.free| - 2;
  }

  /** How many entries of a table of the given level belong to its space. */
  function OwnEntries(level: int): nat
  {
    if level == 4 then 256 else ENTRIES
  }

  /** Entry i of the private table at p, as the destroyer and the cloner meet it. */
  lemma PrivateEntry(s: Sys, p: Path, i: nat)
    requires Inv(s, None) && p in s.tree && IsPrivate(p) && i < OwnEntries(4 - Depth(p))
    requires !(p.Sub? && p.up.Root? && p.idx == 0 && i == 0)
    ensures NodeOk(s.mem, s.tree, s.owner, p)
    ensures var e := EntryAt(s.mem, s.tree, p, i); var c := Sub(p, i);
      && c == Child(p, i) && IsPrivate(c)
      && (!e.present ==> e == NO_PTE && c !in s.tree && c !in s.leaf)
      && (e.present ==> !e.huge && (Depth(p) == 3 ==> e.user))
      && (e.present && Depth(p) < 3 ==> c in s.tree && s.tree[c] == e.frame && c !in s.leaf)
      && (e.present && Depth(p) == 3 ==> c in s.leaf && s.leaf[c] == e && c !in s.tree)
  {
    assert NodeOk(s.mem, s.tree, s.owner, p);
    assert EntryOk(s.mem, s.tree, s.leaf, p, i);
    assert LeafOk(s.tree, s.leaf, s.users, Sub(p, i));
  }

  /** The identity window and the kernel half hold nothing of the space itself. */
  lemma NotOwn(s: Sys, p: Path, i: nat)
    requires Inv(s, None) && p in s.tree && IsPrivate(p)
    requires (p.Sub? && p.up.Root? && p.idx == 0 && i == 0) || i >= OwnEntries(4 - Depth(p))
    ensures Sub(p, i) !in s.tree && Sub(p, i) !in s.leaf
  {
    assert NodeOk(s.mem, s.tree, s.owner, p);
    assert NodeOk(s.mem, s.tree, s.owner, Sub(p, i));
    assert LeafOk(s.tree, s.leaf, s.users, Sub(p, i));
  }

  /** A table that has been emptied may be unlinked; its parent has not moved. */
  lemma EmptiedRemovable(s: Sys, s': Sys, c: Path)
    requires Inv(s, None) && Inv(s', None) && Emptied(s, s', c) && c in s.tree && IsPrivate(c) && c.Sub?
    ensures CanRemove(s', c, None) && s'.tree[c.up] == s.tree[c.up] && c.up in s.tree
  {
    NotUnderSelf(c, c);
    NotUnderSelf(c.up, c);
    assert NodeOk(s.mem, s.tree, s.owner, c) && NodeOk(s'.mem, s'.tree, s'.owner, c);
    assert NodeOk(s'.mem, s'.tree, s'.owner, c.up) && EntryOk(s'.mem, s'.tree, s'.leaf, c.up, c.idx);
    assert FrameOk(s', s'.tree[c]);
    forall q | q in s'.leaf ensures !(q.Sub? && q.up == c) {
      assert IsPrivate(q) ==> q in Maps(s');
      assert q.Sub? && q.up == c ==> IsPrivate(q) && Under(q, c);
    }
  }

  /** All that belonged to the space of r is gone; nothing else has changed. */
  ghost predicate SpaceRemoved(s: Sys, s': Sys, r: nat)
  {
    && (forall q :: q in s'.tree <==> q in s.tree && SpaceOf(q) != Private(r))
    && (forall q :: q in s'.tree ==> s'.tree[q] == s.tree[q])
    && (forall l :: l in Maps(s') <==> l in Maps(s) && SpaceOf(l) != Private(r))
    && (forall l :: l in Maps(s') ==> Maps(s')[l] == Maps(s)[l])
    && Kept(s, s')
  }

  lemma {:induction false} UnderRoot(q: Path, r: nat)
    ensures SpaceOf(q) == Private(r) <==> q == Root(Private(r)) || Under(q, Root(Private(r)))
  {
    if q.Sub? { UnderRoot(q.up, r); }
  }

  /** An emptied root is the last of its space. */
  lemma RootRemoved(s: Sys, s1: Sys, r: nat)
    requires Inv(s, None) && Inv(s1, None) && Emptied(s, s1, Root(Private(r))) && Root(Private(r)) in s.tree
    ensures CanRemove(s1, Root(Private(r)), None) && s1.tree[Root(Private(r))] == r
    ensures SpaceRemoved(s, RemoveTable(s1, Root(Private(r))), r)
  {
    var c := Root(Private(r));
    assert NodeOk(s1.mem, s1.tree, s1.owner, c);
    assert FrameOk(s1, r);
    forall q ensures SpaceOf(q) == Private(r) <==> q == c || Under(q, c) { UnderRoot(q, r); }
    forall q | q in s1.leaf ensures !(q.Sub? && q.up == c) {
      assert IsPrivate(q) ==> q in Maps(s1);
      assert q.Sub? && q.up == c ==> IsPrivate(q) && Under(q, c);
    }
    assert c !in Maps(s) by { assert LeafOk(s.tree, s.leaf, s.users, c); }
    RemoveView(s1, c, None);
    KeptTrans(s, s1, RemoveTable(s1, c));
  }

  lemma SpacesWithout(s: Sys, s': Sys, spaces: set<nat>, cur: nat, r: nat)
    requires SpacesIn(s, spaces, cur) && SpaceRemoved(s, s', r) && r != cur
    ensures SpacesIn(s', spaces - {r}, cur)
  {
    forall x | x in spaces && x != r ensures HasSpace(s', x) {
      assert SpaceOf(Root(Private(x))) == Private(x) && SpaceOf(Sub(Root(Private(x)), 0)) == Private(x);
    }
    assert SpaceOf(Root(Private(r))) == Private(r);
  }

  /** While space src is being copied to d. */
  ghost predicate Cloning(s: Sys, spaces: set<nat>, cur: nat, src: nat, d: nat)
  {
    && SpacesIn(s, spaces, cur) && src in spaces && d in spaces && src != d
    && CopyOnly(s, src, d) && |spaces| <= REFCOUNT_MAX
  }

  lemma StillCloning(s: Sys, s': Sys, spaces: set<nat>, cur: nat, src: nat, d: nat)
    requires Cloning(s, spaces, cur, src, d) && Inv(s', None) && Grew(s, s', src, d) && CopyOnly(s', src, d)
    ensures Cloning(s', spaces, cur, src, d)
  {
    forall r | Root(Private(r)) in s'.tree ensures r in spaces {
      assert SpaceOf(Root(Private(r))) == Private(r);
    }
  }

  /** A table the copy needs could not be had. */
  ghost predicate Starved(s: Sys, s': Sys, src: nat, d: nat, missing: Path)
  {
    s'.free == {} && missing in Needed(s, src) && Move(missing, d) !in s'.tree
  }

  /** Where the copy stands before entry i of the table at p. */
  ghost predicate CopyingAt(s0: Sys, s: Sys, src: nat, d: nat, p: Path, i: nat)
  {
    && Inv(s0, None) && p in s0.tree && SpaceOf(p) == Private(src) && src != d
    && Grew(s0, s, src, d) && Copied(s0, s, src, d, Part(s0, p, i))
  }

  lemma CopySkip(s0: Sys, s: Sys, src: nat, d: nat, p: Path, i: nat)
    requires CopyingAt(s0, s, src, d, p, i) && Inv(s, None)
    requires Sub(p, i) !in s.tree && Sub(p, i) !in s.leaf
    ensures CopyingAt(s0, s, src, d, p, i + 1)
  {
    assert SpaceOf(Sub(p, i)) == Private(src);
    assert Sub(p, i) !in s0.tree;
    assert Sub(p, i) !in Maps(s) && Sub(p, i) !in Maps(s0);
    PartNext(s0, p, i);
  }

  /** Nothing under p has a copy in d. */
  ghost predicate NoCopies(s: Sys, p: Path, d: nat)
  {
    forall x {:trigger Under(x, p)} :: Under(x, p) ==> Move(x, d) !in Maps(s)
  }

  lemma CopyStart(s: Sys, src: nat, d: nat, p: Path)
    requires Inv(s, None) && p in s.tree && SpaceOf(p) == Private(src) && src != d
    ensures CopyingAt(s, s, src, d, p, 0)
  {
    forall x ensures !Gone(x, p, 0) { GoneZero(x, p); }
    assert Part(s, p, 0) == {};
    forall f ensures KeptFrame(s, s, f) {}
  }

  /** The subtable under entry i has been copied whole. */
  lemma CopyTableDone(s0: Sys, s: Sys, s': Sys, src: nat, d: nat, p: Path, i: nat)
    requires CopyingAt(s0, s, src, d, p, i) && Grew(s, s', src, d) && Copied(s, s', src, d, Whole(s, Sub(p, i)))
    requires Inv(s, None) && Sub(p, i) !in s.leaf
    ensures CopyingAt(s0, s', src, d, p, i + 1)
  {
    var c := Sub(p, i);
    assert SpaceOf(c) == Private(src);
    assert c !in Maps(s) && c !in Maps(s0);
    PartNext(s0, p, i);
    WholeSame(s0, s, src, d, c);
    GrewTrans(s0, s, s', src, d);
    CopiedTrans(s0, s, s', src, d, Part(s0, p, i), Whole(s0, c));
  }

  /** All own entries of the table at p done is the whole table done. */
  lemma CopyEnd(s0: Sys, s: Sys, src: nat, d: nat, p: Path, n: nat)
    requires CopyingAt(s0, s, src, d, p, n) && n == OwnEntries(4 - Depth(p))
    ensures Copied(s0, s, src, d, Whole(s0, p))
  {
    forall i: nat | i >= n ensures Sub(p, i) !in s0.tree && Sub(p, i) !in s0.leaf { NotOwn(s0, p, i); }
    forall x | x in Maps(s0) ensures Gone(x, p, n) <==> Under(x, p) {
      if Under(x, p) { UnderIsGone(s0, p, n, x); }
      if Gone(x, p, n) { GoneIsUnder(x, p, n); }
    }
    assert Part(s0, p, n) == Whole(s0, p);
  }

  /** The subtable under entry i has no copies yet. */
  lemma CopyTableReady(s0: Sys, s: Sys, src: nat, d: nat, p: Path, i: nat)
    requires CopyingAt(s0, s, src, d, p, i)
    requires NoCopies(s0, p, d)
    ensures SpaceOf(Sub(p, i)) == Private(src)
    ensures NoCopies(s, Sub(p, i), d)
  {
    forall x | Under(x, Sub(p, i)) ensures Move(x, d) !in Maps(s) {
      GoneNext(x, p, i);
      GoneIsUnder(x, p, i + 1);
      NotYetCopied(s0, s, src, d, p, i, x);
    }
  }

  lemma CopyLeafReady(s0: Sys, s: Sys, spaces: set<nat>, cur: nat, src: nat, d: nat, p: Path, i: nat)
    requires CopyingAt(s0, s, src, d, p, i) && Inv(s, None) && Cloning(s, spaces, cur, src, d)
    requires Depth(p) == 3 && Sub(p, i) in s.leaf && Move(Sub(p, i), d) !in Maps(s0)
    ensures var l := Sub(p, i); var v := VirtOf(p, i);
      && SpaceOf(l) == Private(src) && Sharers(s, s.leaf[l].frame) < REFCOUNT_MAX
      && IDENTITY_TOP <= v < USER_SPACE_TOP && PathOf(d, v) == Move(l, d) && Move(l, d) !in s.leaf
      && p in Needed(s0, src) && Move(p, d) == Move(l, d).up
  {
    var l := Sub(p, i);
    assert SpaceOf(l) == Private(src);
    NotYetCopied(s0, s, src, d, p, i, l);
    assert LeafOk(s.tree, s.leaf, s.users, l);
    VirtOfLeaf(p, i, d);
    SharersBound(s, spaces, l, src, d);
    assert l in Maps(s) && l in Maps(s0);
    assert Below(l, p);
  }

  lemma CopyLeafDone(s0: Sys, s: Sys, s': Sys, src: nat, d: nat, p: Path, i: nat)
    requires CopyingAt(s0, s, src, d, p, i) && Grew(s, s', src, d) && Copied(s, s', src, d, {Sub(p, i)})
    requires Inv(s, None) && Sub(p, i) in s.leaf && Sub(p, i) !in s.tree
    ensures CopyingAt(s0, s', src, d, p, i + 1)
  {
    var l := Sub(p, i);
    assert SpaceOf(l) == Private(src);
    assert l in Maps(s) && l in Maps(s0) && l !in s0.tree;
    PartNext(s0, p, i);
    GrewTrans(s0, s, s', src, d);
    CopiedTrans(s0, s, s', src, d, Part(s0, p, i), {l});
  }

  lemma CloneReady(s0: Sys, s1: Sys, src: nat, d: nat)
    requires SpaceAdded(s0, s1, d) && Maps(s1) == Maps(s0) && Inv(s1, None) && Root(Private(src)) in s0.tree
    ensures CopyOnly(s1, src, d) && NoCopies(s1, Root(Private(src)), d)
    ensures Root(Private(src)) in s1.tree && s1.tree[Root(Private(src))] == src
  {
    assert NodeOk(s1.mem, s1.tree, s1.owner, Root(Private(src)));
  }

  lemma SpacesGrew(s: Sys, s': Sys, spaces: set<nat>, cur: nat, src: nat, d: nat)
    requires SpacesIn(s, spaces, cur) && Grew(s, s', src, d) && d in spaces
    ensures SpacesIn(s', spaces, cur)
  {
    forall r | Root(Private(r)) in s'.tree ensures r in spaces {
      assert SpaceOf(Root(Private(r))) == Private(r);
    }
  }

  /** From the state s0, space d was created (s1) and then copied to (s). */
  ghost predicate CloneRun(s0: Sys, s1: Sys, s: Sys, src: nat, d: nat)
  {
    && Inv(s0, None) && Inv(s1, None) && Inv(s, None) && src != d
    && HasSpace(s0, src) && SpaceAdded(s0, s1, d) && Maps(s1) == Maps(s0) && Kept(s0, s1)
    && Grew(s1, s, src, d)
  }

  lemma NeededBefore(s0: Sys, s1: Sys, src: nat, d: nat)
    requires SpaceAdded(s0, s1, d) && Maps(s1) == Maps(s0) && src != d
    ensures Needed(s1, src) == Needed(s0, src)
  {}

  /** The frames taken since s0 are the tables of d, all of them needed. */
  lemma CloneTables(s0: Sys, s1: Sys, s: Sys, src: nat, d: nat)
    requires CloneRun(s0, s1, s, src, d)
    ensures |s.free| + |TablesOf(s, d)| == |s0.free|
    ensures forall q :: q in TablesOf(s, d) ==> Move(q, src) in Needed(s0, src)
  {
    var p := Root(Private(d));
    assert SpaceOf(p) == Private(d) && SpaceOf(Sub(p, 0)) == Private(d);
    assert Move(p, src) == Root(Private(src)) && Move(Sub(p, 0), src) == Sub(Root(Private(src)), 0);
    assert SpaceOf(Root(Private(src))) == Private(src) && SpaceOf(Sub(Root(Private(src)), 0)) == Private(src);
    NeededBefore(s0, s1, src, d);
    FramesTaken(s0, s, d);
  }

  /** A clone that ran out of frames had fewer than it needed. */
  lemma CloneStarved(s0: Sys, s1: Sys, s: Sys, src: nat, d: nat, missing: Path)
    requires CloneRun(s0, s1, s, src, d) && Starved(s1, s, src, d, missing)
    ensures |s0.free| < |Needed(s0, src)|
  {
    CloneTables(s0, s1, s, src, d);
    NeededBefore(s0, s1, src, d);
    forall q | q in TablesOf(s, d) ensures Move(q, src) in Needed(s0, src) - {missing} {
      MoveBack(q, d, src);
    }
    MoveSize(TablesOf(s, d), Needed(s0, src) - {missing}, d, src);
  }

  /** A clone that succeeded had as many frames as it needed. */
  lemma CloneServed(s0: Sys, s1: Sys, s: Sys, src: nat, d: nat)
    requires CloneRun(s0, s1, s, src, d) && Copied(s1, s, src, d, Whole(s1, Root(Private(src))))
    ensures |s0.free| >= |Needed(s0, src)|
  {
    CloneTables(s0, s1, s, src, d);
    forall p | p in Needed(s0, src) ensures Move(p, d) in TablesOf(s, d) {
      if !(p == Root(Private(src)) || p == Sub(Root(Private(src)), 0)) {
        var l :| l in Maps(s0) && Below(l, p);
        BelowSpace(l, p);
        UnderRoot(l, src);
        assert LeafOk(s0.tree, s0.leaf, s0.users, l) && NodeOk(s0.mem, s0.tree, s0.owner, p);
        MoveBack(l, src, d);
        assert Move(l, d) in Maps(s);
        MoveBelow(l, p, d);
        AncestorsIn(s, Move(l, d), Move(p, d));
      }
    }
    MoveSize(Needed(s0, src), TablesOf(s, d), src, d);
  }

  lemma NeededTwo(s: Sys, r: nat)
    requires HasSpace(s, r)
    ensures |Needed(s, r)| >= 2
  {
    var p := Root(Private(r));
    assert SpaceOf(p) == Private(r) && SpaceOf(Sub(p, 0)) == Private(r);
    SubsetSize({p, Sub(p, 0)}, Needed(s, r));
  }

  /** Only space d got or lost tables. */
  ghost predicate SameTables(s: Sys, s': Sys, d: nat)
  {
    forall q :: SpaceOf(q) != Private(d) ==>
      (q in s.tree <==> q in s'.tree) && (q in s.tree ==> s'.tree[q] == s.tree[q])
  }

  lemma CloneSameTables(s0: Sys, s1: Sys, s: Sys, src: nat, d: nat)
    requires CloneRun(s0, s1, s, src, d)
    ensures SameTables(s0, s, d)
  {
    assert SpaceOf(Root(Private(d))) == Private(d) && SpaceOf(Sub(Root(Private(d)), 0)) == Private(d);
  }

  /** The mappings of d are now those of src; all others stand. */
  ghost predicate Forked(m: map<Path, Mapped>, m': map<Path, Mapped>, src: nat, d: nat)
  {
    && SameElsewhere(m, m', d)
    && (forall l :: SpaceOf(l) == Private(d) ==>
          (l in m' <==> Move(l, src) in m) && (l in m' ==> m'[l] == m[Move(l, src)]))
  }

  lemma CloneForked(s0: Sys, s1: Sys, s: Sys, src: nat, d: nat)
    requires CloneRun(s0, s1, s, src, d) && Copied(s1, s, src, d, Whole(s1, Root(Private(src))))
    ensures Forked(Maps(s0), Maps(s), src, d)
  {
    forall l | SpaceOf(l) == Private(d)
      ensures (l in Maps(s) <==> Move(l, src) in Maps(s0)) && (l in Maps(s) ==> Maps(s)[l] == Maps(s0)[Move(l, src)])
    {
      UnderRoot(Move(l, src), src);
      assert LeafOk(s0.tree, s0.leaf, s0.users, Root(Private(src)));
    }
  }

  lemma CloneUndoneTree(s0: Sys, s1: Sys, s2: Sys, s: Sys, src: nat, d: nat)
    requires SpaceAdded(s0, s1, d) && GrewTree(s1, s2, src, d) && SpaceRemoved(s2, s, d)
    ensures s.tree == s0.tree
  {
    var p := Root(Private(d));
    assert SpaceOf(p) == Private(d) && SpaceOf(Sub(p, 0)) == Private(d);
    assert forall q :: q in s.tree <==> q in s0.tree;
  }

  lemma CloneUndoneMaps(s0: Sys, s1: Sys, s2: Sys, s: Sys, d: nat)
    requires SpaceAdded(s0, s1, d) && Maps(s1) == Maps(s0)
    requires SameElsewhere(Maps(s1), Maps(s2), d) && SpaceRemoved(s2, s, d)
    ensures Maps(s) == Maps(s0)
  {
    assert forall l :: l in Maps(s) <==> l in Maps(s0);
  }

  /** A clone that fails and is destroyed leaves tables, mappings and frames as they were. */
  lemma CloneUndone(s0: Sys, s1: Sys, s2: Sys, s: Sys, src: nat, d: nat)
    requires CloneRun(s0, s1, s2, src, d) && SpaceRemoved(s2, s, d) && Inv(s, None)
    ensures s.tree == s0.tree && Maps(s) == Maps(s0) && s.free == s0.free && s.rc == s0.rc && Kept(s0, s)
  {
    CloneUndoneTree(s0, s1, s2, s, src, d);
    CloneUndoneMaps(s0, s1, s2, s, d);
    KeptTrans(s0, s1, s2);
    KeptTrans(s0, s2, s);
    AllocatorDetermined(s0, s);
  }

  /** Mapping a page adds at most three tables. */
  lemma TablesGrown(s: Sys, s': Sys, root: nat, virt: nat, held: Option<nat>)
    requires TreeGrown(s, s', PathOf(root, virt)) && Inv(s', held) && HasSpace(s, root)
    requires IDENTITY_TOP <= virt < USER_SPACE_TOP
    ensures |s'.tree| <= |s.tree| + 3
  {
    hide TreeGrown, PathOf;
    PathShape(root, virt);
    UserIsPrivate(root, virt);
    var l := PathOf(root, virt);
    var a, b, c := Pdpt(root, virt), Pd(root, virt), Pt(root, virt);
    forall q | q in s'.tree && q !in s.tree ensures q == a || q == b || q == c {
      GrownBelow(s, s', l, q);
      assert NodeOk(s'.mem, s'.tree, s'.owner, q);
      ChainOnly(l, root, q);
    }
    assert s'.tree.Keys <= s.tree.Keys + {a, b, c};
    SubsetSize(s'.tree.Keys, s.tree.Keys + {a, b, c});
    ThreeMore(s.tree.Keys, a, b, c);
  }

  lemma GrownBelow(s: Sys, s': Sys, l: Path, q: Path)
    requires TreeGrown(s, s', l) && q in s'.tree && q !in s.tree
    ensures Below(l, q)
  {}

  lemma ChainOnly(l: Path, root: nat, q: Path)
    requires Below(l, q) && l.Sub? && l.up.Sub? && l.up.up.Sub? && l.up.up.up.Sub?
    requires l.up.up.up.up == Root(Private(root))
    ensures q == l || q == l.up || q == l.up.up || q == l.up.up.up || q == Root(Private(root))
  {
    if q != l {
      assert Below(l.up, q);
      if q != l.up {
        assert Below(l.up.up, q);
        if q != l.up.up {
          assert Below(l.up.up.up, q);
          if q != l.up.up.up { assert Below(l.up.up.up.up, q); }
        }
      }
    }
  }

  lemma ThreeMore<T>(s: set<T>, a: T, b: T, c: T)
    ensures |s + {a, b, c}| <= |s| + 3
  {
    assert s + {a, b, c} == s + {a} + {b} + {c};
  }

  /** Outside the space rooted at r, tables and mappings are as they were. */
  ghost predicate OnlySpace(s: Sys, s': Sys, r: nat)
  {
    && Kept(s, s') && SameElsewhere(Maps(s), Maps(s'), r)
    && (forall q :: SpaceOf(q) != Private(r) ==>
          (q in s'.tree <==> q in s.tree) && (q in s.tree ==> s'.tree[q] == s.tree[q]))
  }

  lemma OnlySame(s: Sys, r: nat)
    ensures OnlySpace(s, s, r)
  {
    KeptSame(s);
  }

  lemma OnlyTrans(a: Sys, b: Sys, c: Sys, r: nat)
    requires OnlySpace(a, b, r) && OnlySpace(b, c, r)
    ensures OnlySpace(a, c, r)
  {
    hide Kept, Maps;
    KeptTrans(a, b, c);
  }

  lemma OnlyMapped(s: Sys, s': Sys, l: Path, r: nat)
    requires Kept(s, s') && TreeGrown(s, s', l) && SpaceOf(l) == Private(r)
    requires Maps(s') == Maps(s) || (l in Maps(s') && Maps(s') == Maps(s)[l := Maps(s')[l]])
    ensures OnlySpace(s, s', r)
  {
    hide Kept, Maps;
    forall q | q in s'.tree && q !in s.tree ensures SpaceOf(q) == Private(r) { BelowSpace(l, q); }
  }

  /** A space that is made, filled and destroyed leaves no trace. */
  lemma SpaceUndone(s0: Sys, s1: Sys, s2: Sys, s: Sys, r: nat)
    requires Inv(s0, None) && Inv(s, None) && Kept(s0, s1) && Maps(s1) == Maps(s0)
    requires SpaceAdded(s0, s1, r) && OnlySpace(s1, s2, r) && SpaceRemoved(s2, s, r)
    ensures s.tree == s0.tree && Maps(s) == Maps(s0) && s.free == s0.free && s.rc == s0.rc && Kept(s0, s)
  {
    UndoneTree(s0, s1, s2, s, r);
    CloneUndoneMaps(s0, s1, s2, s, r);
    KeptTrans(s0, s1, s2);
    KeptTrans(s0, s2, s);
    AllocatorDetermined(s0, s);
  }

  lemma UndoneTree(s0: Sys, s1: Sys, s2: Sys, s: Sys, r: nat)
    requires SpaceAdded(s0, s1, r) && OnlySpace(s1, s2, r) && SpaceRemoved(s2, s, r)
    ensures s.tree == s0.tree
  {
    hide Kept, Maps, SameElsewhere;
    var p := Root(Private(r));
    assert SpaceOf(p) == Private(r) && SpaceOf(Sub(p, 0)) == Private(r);
    assert forall q :: q in s.tree <==> q in s0.tree;
  }

  lemma MappedPages(s: Sys, s': Sys, l: Path, w: PageView)
    requires l in Maps(s') && Maps(s')[l].page == w && Maps(s') == Maps(s)[l := Maps(s')[l]]
    ensures Pages(s') == Pages(s)[l := w]
  {}

  lemma SamePages(s: Sys, s': Sys)
    requires Maps(s') == Maps(s)
    ensures Pages(s') == Pages(s)
  {}

  lemma SpacesMapped(s: Sys, s': Sys, spaces: set<nat>, cur: nat, l: Path)
    requires SpacesIn(s, spaces, cur) && TreeGrown(s, s', l) && SpaceOf(l).Private? && SpaceOf(l).root in spaces
    ensures SpacesIn(s', spaces, cur)
  {
    forall r | Root(Private(r)) in s'.tree ensures r in spaces {
      if Root(Private(r)) !in s.tree {
        BelowSpace(l, Root(Private(r)));
        assert SpaceOf(Root(Private(r))) == Private(r);
      }
    }
  }

  class PageTables {
    const pmm: FrameAllocator
    var mem: map<nat, Content>
    var cur: nat
    var spaces: set<nat>
    ghost var sys: Sys

    ghost predicate Valid(held: Option<nat>)
      reads this, pmm, pmm.bitmap, pmm.refcount
    {
      && pmm.Valid()
      && sys.mem == mem && sys.free == pmm.free && sys.rc == pmm.rc
      && Inv(sys, held)
    }

    /** Takes over the tables that boot has built; boot is the only space. */
    constructor (pmm: FrameAllocator, mem: map<nat, Content>, boot: nat, ghost sys: Sys)
      requires pmm.Valid() && Inv(sys, None)
      requires sys.mem == mem && sys.free == pmm.free && sys.rc == pmm.rc
      requires HasSpace(sys, boot) && forall r :: Root(Private(r)) in sys.tree ==> r == boot
      ensures Valid(None) && SpacesOk() && cur == boot && spaces == {boot}
      ensures this.pmm == pmm && this.mem == mem && this.sys == sys
    {
      this.pmm, this.mem, this.cur, this.spaces, this.sys := pmm, mem, boot, {boot}, sys;
    }

    ghost predicate SpacesOk()
      reads this
    {
      SpacesIn(sys, spaces, cur)
    }

    /** Follows entry i of table t, allocating the next table when it is missing,
        and opens the entry for a user mapping. */
    method WalkOrAlloc(t: nat, i: nat, user: bool, ghost p: Path, ghost l: Path, ghost held: Option<nat>)
      returns (r: Option<nat>)
      requires Valid(held)
      requires p in sys.tree && sys.tree[p] == t && i < ENTRIES && Depth(p) < 3 && Opened(mem, sys.tree, p)
      requires !EntryAt(sys.mem, sys.tree, p, i).huge && Below(l, Child(p, i))
      requires Child(p, i) !in sys.tree ==> Child(p, i) == Sub(p, i) && IsPos(Sub(p, i)) && (p.Root? ==> i != 0)
      requires user == IsPrivate(l) && (user ==> IsPrivate(p) && Child(p, i) == Sub(p, i))
      modifies this`mem, this`sys, pmm, pmm.bitmap, pmm.refcount
      ensures Valid(held) && Grown(old(sys), sys, l)
      ensures r.Some? ==> Child(p, i) in sys.tree && sys.tree[Child(p, i)] == r.value
      ensures r.Some? ==> Opened(mem, sys.tree, Child(p, i))
      ensures r.None? <==> Child(p, i) !in old(sys.tree) && old(sys.free) == {}
      ensures r.None? ==> sys == old(sys)
      ensures sys.free == old(sys.free) || Child(p, i) !in old(sys.tree)
    {
      hide Kept, Sound, Maps, Grown;
      GrownSame(sys, l);
      Step(sys, held, p, i);
      assert NodeOk(mem, sys.tree, sys.owner, p);
      BelowSpace(l, Child(p, i));
      var e := mem[t].entries[i];
      if e.present {
        r := Some(e.frame);
      } else {
        r := AllocTable(t, i, p, l, held);
        if r.None? {
          return;
        }
      }
      if user {
        OpenEntry(t, i, p, l, held, old(sys));
      }
    }

    /** Sets the user bit of the link to a private table. */
    method OpenEntry(t: nat, i: nat, ghost p: Path, ghost l: Path, ghost held: Option<nat>, ghost s0: Sys)
      requires Valid(held) && p in sys.tree && sys.tree[p] == t && IsPrivate(p) && i < ENTRIES && Depth(p) < 3
      requires Child(p, i) == Sub(p, i) && Sub(p, i) in sys.tree && Grown(s0, sys, l)
      modifies this`mem, this`sys
      ensures Valid(held) && Grown(s0, sys, l) && sys.tree == old(sys.tree) && sys.free == old(sys.free)
      ensures Opened(mem, sys.tree, Sub(p, i))
    {
      hide Kept, Sound, Maps, Grown;
      Step(sys, held, p, i);
      assert NodeOk(mem, sys.tree, sys.owner, p);
      assert EntryOk(mem, sys.tree, sys.leaf, p, i);
      OpenGrown(sys, p, i, held, l);
      GrownTrans(s0, sys, OpenLink(sys, p, i), l);
      mem := SetEntry(mem, t, i, mem[t].entries[i].(user := true));
      sys := OpenLink(sys, p, i);
    }

    method AllocTable(t: nat, i: nat, ghost p: Path, ghost l: Path, ghost held: Option<nat>)
      returns (r: Option<nat>)
      requires Valid(held)
      requires p in sys.tree && sys.tree[p] == t && i < ENTRIES && Depth(p) < 3 && Opened(mem, sys.tree, p)
      requires EntryAt(sys.mem, sys.tree, p, i) == NO_PTE && Below(l, Sub(p, i))
      requires Child(p, i) == Sub(p, i) && IsPos(Sub(p, i)) && (p.Root? ==> i != 0)
      requires IsPrivate(l) == IsPrivate(p)
      modifies this`mem, this`sys, pmm, pmm.bitmap, pmm.refcount
      ensures Valid(held) && Grown(old(sys), sys, l)
      ensures r.Some? ==> Sub(p, i) in sys.tree && sys.tree[Sub(p, i)] == r.value
      ensures p in sys.tree && sys.tree[p] == t
      ensures r.None? <==> old(sys.free) == {}
      ensures r.None? ==> sys == old(sys)
    {
      hide Kept, Sound, Maps, Grown;
      GrownSame(sys, l);
      r := pmm.AllocFrame();
      if r.None? {
        return;
      }
      var f := r.value;
      LinkGrown(sys, p, i, f, held, l);
      sys := LinkTable(sys, p, i, f);
      mem := mem[f := EmptyTable()];
      mem := SetEntry(mem, t, i, Pte(true, true, false, false, false, false, f));
      assert mem[t] == sys.mem[t];
    }

    /** The page table for virt, its missing ancestors allocated; none if a huge
        page is in the way or frames run out. */
    method WalkToTable(root: nat, virt: nat, user: bool, ghost held: Option<nat>) returns (r: Option<nat>)
      requires Valid(held) && HasSpace(sys, root) && IDENTITY_TOP <= virt < VIRT_TOP
      requires user == IsPrivate(PathOf(root, virt))
      requires !user ==> Pdpt(root, virt) in sys.tree
      modifies this`mem, this`sys, pmm, pmm.bitmap, pmm.refcount
      ensures Valid(held) && Grown(old(sys), sys, PathOf(root, virt))
      ensures r.Some? ==> Pt(root, virt) in sys.tree && sys.tree[Pt(root, virt)] == r.value
      ensures r.Some? ==> Opened(mem, sys.tree, Pt(root, virt))
      ensures r.None? ==> sys.free == {} || Flat(sys.leaf, root, virt).huge
      ensures r.None? ==> Pt(root, virt) !in sys.tree
    {
      hide Kept, Sound, Maps;
      ghost var l := PathOf(root, virt);
      PathShape(root, virt);
      ChainShape(root, virt);
      assert NodeOk(mem, sys.tree, sys.owner, Root(Private(root)));
      Step(sys, held, Root(Private(root)), Pml4Idx(virt));
      r := WalkOrAlloc(root, Pml4Idx(virt), user, Root(Private(root)), l, held);
      if r.None? {
        FlatMissing(sys, held, root, virt);
        return;
      }
      ghost var s1 := sys;
      Step(sys, held, Pdpt(root, virt), PdptIdx(virt));
      r := WalkOrAlloc(r.value, PdptIdx(virt), user, Pdpt(root, virt), l, held);
      GrownTrans(old(sys), s1, sys, l);
      if r.None? {
        FlatMissing(sys, held, root, virt);
        return;
      }
      ghost var s2 := sys;
      Step(sys, held, Pd(root, virt), PdIdx(virt));
      FlatBelow(sys, held, root, virt);
      if EntryIn(mem, r.value, PdIdx(virt)).huge {
        return None;
      }
      r := WalkOrAlloc(r.value, PdIdx(virt), user, Pd(root, virt), l, held);
      GrownTrans(old(sys), s2, sys, l);
    }

    /** Maps one page. The flat map changes at that page alone on success and
        nowhere on failure, whatever tables were added on the way. */
    method MapPage(root: nat, virt: nat, frame: nat, flags: Flags, ghost held: Option<nat>) returns (ok: bool)
      requires Valid(held) && CanMap(sys, root, virt, LeafEntry(frame, flags), held)
      modifies this`mem, this`sys, pmm, pmm.bitmap, pmm.refcount
      ensures ghost var l := PathOf(root, virt); ghost var e := LeafEntry(frame, flags);
        && Valid(if ok && IsPrivate(l) then None else held)
        && TreeGrown(old(sys), sys, l)
        && sys.leaf == (if ok then old(sys.leaf)[l := e] else old(sys.leaf))
        && Maps(sys) == (if ok && IsPrivate(l) then Maps(old(sys))[l := PageOf(old(mem), e)] else Maps(old(sys)))
        && (IsPrivate(l) ==> Kept(old(sys), sys))
        && (!ok ==> sys.users == old(sys.users) && Pt(root, virt) !in sys.tree)
        && (ok ==> Pt(root, virt) in sys.tree) && Balance(sys) == Balance(old(sys))
      ensures !ok ==> sys.free == {} || Flat(sys.leaf, root, virt).huge
    {
      hide Kept, Sound, Maps;
      ghost var l := PathOf(root, virt);
      var t := WalkToTable(root, virt, flags.user, held);
      if t.None? {
        return false;
      }
      var e := LeafEntry(frame, flags);
      ghost var s1 := sys;
      MapLeafInv(sys, root, virt, e, held);
      GrownPage(old(sys), sys, l, e, held);
      mem := SetEntry(mem, t.value, PtIdx(virt), e);
      sys := MapLeaf(sys, l, e);
      if IsPrivate(l) { KeptTrans(old(sys), s1, sys); }
      return true;
    }

    /** Unmaps one 4 KiB page; a no-op where none is mapped. The caller is left
        holding the reference of a user leaf. */
    method UnmapPage(root: nat, virt: nat)
      requires Valid(None) && HasSpace(sys, root)
      modifies this`mem, this`sys
      ensures ghost var l := PathOf(root, virt);
        && Valid(if IsPrivate(l) && l in old(sys.leaf) then Some(old(sys.leaf)[l].frame) else None)
        && sys.leaf == old(sys.leaf) - {l} && sys.tree == old(sys.tree)
        && Maps(sys) == Maps(old(sys)) - {l}
        && (l !in old(sys.leaf) ==> sys == old(sys))
        && (IsPrivate(l) ==> Kept(old(sys), sys))
    {
      ghost var l := PathOf(root, virt);
      PteIsFlat(sys, None, root, virt);
      GrownSame(sys, l);
      PathShape(root, virt);
      assert LeafOk(sys.tree, sys.leaf, sys.users, l);
      var e4 := EntryIn(mem, root, Pml4Idx(virt));
      if !e4.present { return; }
      var e3 := EntryIn(mem, e4.frame, PdptIdx(virt));
      if !e3.present { return; }
      assert !e3.huge by { NoHugePdpt(sys, None, root, virt); }
      var e2 := EntryIn(mem, e3.frame, PdIdx(virt));
      if !e2.present || e2.huge { return; }
      Step(sys, None, l.up, l.idx);
      assert NodeOk(mem, sys.tree, sys.owner, l.up);
      if l in sys.leaf {
        UnmapLeafInv(sys, root, virt);
        sys := MapLeaf(sys, l, NO_PTE);
      } else {
        assert mem[e2.frame].entries[PtIdx(virt) := NO_PTE] == mem[e2.frame].entries;
      }
      mem := SetEntry(mem, e2.frame, PtIdx(virt), NO_PTE);
      assert mem == sys.mem;
    }

    /** Gives up the held reference to frame f. */
    method Drop(f: nat)
      requires Valid(Some(f))
      modifies this`sys, pmm, pmm.bitmap, pmm.refcount
      ensures Valid(None)
      ensures Maps(sys) == Maps(old(sys)) && Kept(old(sys), sys)
      ensures sys.tree == old(sys.tree) && sys.leaf == old(sys.leaf)
      ensures old(sys.free) <= sys.free <= old(sys.free) + {f}
      ensures Sharers(old(sys), f) > 0 ==> sys.free == old(sys.free)
    {
      assert UserOk(sys, f, Some(f));
      DropHeldInv(sys, f);
      DropHeldView(sys, f);
      pmm.FreeFrame(f);
      sys := DropHeld(sys, f);
    }

    /** Allocates a user page frame with the given contents, held by the caller. */
    method HoldPage(bytes: Page) returns (r: Option<nat>)
      requires Valid(None)
      modifies this`mem, this`sys, pmm, pmm.bitmap, pmm.refcount
      ensures r.None? ==> Valid(None) && sys == old(sys) && sys.free == {}
      ensures r.Some? ==>
        && Valid(Some(r.value)) && Maps(sys) == Maps(old(sys)) && Kept(old(sys), sys)
        && sys.tree == old(sys.tree) && sys.leaf == old(sys.leaf)
        && r.value !in old(sys.users) && sys.users == old(sys.users)[r.value := {}]
        && sys.mem == old(sys.mem)[r.value := Data(bytes)]
      ensures r.Some? ==> r.value in old(sys.free) && sys.free == old(sys.free) - {r.value}
    {
      hide Sound, Maps;
      r := pmm.AllocFrame();
      if r.None? {
        return;
      }
      var f := r.value;
      assert FrameOk(sys, f);
      assert UserOk(sys, f, None);
      HoldNewInv(sys, f, bytes);
      HoldNewView(sys, f, bytes);
      mem := mem[f := Data(bytes)];
      sys := HoldNew(sys, f, bytes);
    }

    /** Maps a fresh frame that holds bytes; on failure the frame is given back. */
    method MapFilledPage(root: nat, virt: nat, bytes: Page, write: bool, nx: bool) returns (ok: bool)
      requires Valid(None) && HasSpace(sys, root)
      requires IDENTITY_TOP <= virt < USER_SPACE_TOP && PathOf(root, virt) !in sys.leaf
      modifies this`mem, this`sys, pmm, pmm.bitmap, pmm.refcount
      ensures Valid(None) && Kept(old(sys), sys)
      ensures TreeGrown(old(sys), sys, PathOf(root, virt))
      ensures !ok ==> Maps(sys) == Maps(old(sys)) && |sys.free| <= 1
      ensures |old(sys.free)| <= |sys.free| + 4
      ensures ok ==> ghost var l := PathOf(root, virt);
        && l in Maps(sys) && Maps(sys)[l].page == PageView(bytes, write, nx)
        && Maps(sys) == Maps(old(sys))[l := Maps(sys)[l]]
      ensures ok ==> PathOf(root, virt) in sys.leaf && sys.leaf[PathOf(root, virt)].write == write
    {
      UserIsPrivate(root, virt);
      ghost var l := PathOf(root, virt);
      var r := HoldPage(bytes);
      if r.None? {
        GrownSame(sys, l);
        return false;
      }
      ghost var s1 := sys;
      var flags := Flags(write, true, false, nx);
      ok := MapPage(root, virt, r.value, flags, Some(r.value));
      KeptTrans(old(sys), s1, sys);
      TablesGrown(s1, sys, root, virt, if ok then None else Some(r.value));
      if !ok {
        NoHugeUser(sys, Some(r.value), root, virt);
        ghost var s2 := sys;
        Drop(r.value);
        SubsetSize(s2.free, sys.free);
        SubsetSize(sys.free, {r.value});
        KeptTrans(old(sys), s2, sys);
      }
    }

    /** Maps a zero page: anonymous memory, heap growth, a fresh stack. */
    method MapZeroPage(root: nat, virt: nat, write: bool, nx: bool) returns (ok: bool)
      requires Valid(None) && HasSpace(sys, root)
      requires IDENTITY_TOP <= virt < USER_SPACE_TOP && PathOf(root, virt) !in sys.leaf
      modifies this`mem, this`sys, pmm, pmm.bitmap, pmm.refcount
      ensures Valid(None) && Kept(old(sys), sys)
      ensures TreeGrown(old(sys), sys, PathOf(root, virt))
      ensures !ok ==> Maps(sys) == Maps(old(sys)) && |sys.free| <= 1
      ensures |old(sys.free)| <= |sys.free| + 4
      ensures ok ==> ghost var l := PathOf(root, virt);
        && l in Maps(sys) && Maps(sys)[l].page == PageView(ZeroPage(), write, nx)
        && Maps(sys) == Maps(old(sys))[l := Maps(sys)[l]]
    {
      hide Kept, Maps, Inv, Sound, TreeGrown;
      ok := MapFilledPage(root, virt, ZeroPage(), write, nx);
    }

    /** Unmaps a user page and drops its frame; anything else is left alone. */
    method UnmapUserPage(root: nat, virt: nat)
      requires Valid(None) && HasSpace(sys, root)
      modifies this`mem, this`sys, pmm, pmm.bitmap, pmm.refcount
      ensures Valid(None) && Kept(old(sys), sys)
      ensures Maps(sys) == Maps(old(sys)) - {PathOf(root, virt)}
      ensures sys.tree == old(sys.tree)
    {
      ghost var l := PathOf(root, virt);
      GrownSame(sys, l);
      WalkIsFlat(sys, None, root, virt);
      PhysicalIsFlat(sys, None, root, virt);
      PathShape(root, virt);
      assert LeafOk(sys.tree, sys.leaf, sys.users, l) && LeafOk(sys.tree, sys.leaf, sys.users, l.up);
      var e := FinalEntry(mem, root, virt);
      if !(e.present && e.user) {
        return;
      }
      var phys := GetPhysical(mem, root, virt);
      UnmapPage(root, virt);
      ghost var s1 := sys;
      if phys.Some? {
        assert phys.value / PAGE_SIZE == e.frame;
        Drop(phys.value / PAGE_SIZE);
        KeptTrans(old(sys), s1, sys);
      }
    }

    /** The slot t[i] of leaf l now holds e. */
    method WriteLeaf(t: nat, i: nat, e: Pte, ghost l: Path, ghost held: Option<nat>)
      requires Valid(HeldBefore(sys, l, e, held)) && CanSet(sys, l, e, held)
      requires t == sys.tree[l.up] && i == l.idx
      modifies this`mem, this`sys
      ensures Valid(HeldAfter(old(sys), l, e, held)) && sys == SetLeaf(old(sys), l, e)
    {
      SetLeafInv(sys, l, e, held);
      mem := SetEntry(mem, t, i, e);
      sys := SetLeaf(sys, l, e);
    }

    /** Resolves a user write to a copy-on-write page. No process sees a change;
        on success the leaf is writable. Fails only for other faults or when a
        copy is needed and no frame is left. */
    method HandlePageFault(addr: nat, isPresent: bool, isWrite: bool) returns (ok: bool)
      requires Valid(None) && SpacesOk()
      modifies this`mem, this`sys, pmm, pmm.bitmap, pmm.refcount
      ensures Valid(None) && Kept(old(sys), sys) && sys.tree == old(sys.tree)
      ensures Pages(sys) == Pages(old(sys))
      ensures !ok ==> sys == old(sys)
      ensures ghost var l := PathOf(cur, addr);
        ok <==> && isPresent && isWrite && addr < USER_SPACE_TOP
                && l in old(sys.leaf) && IsPrivate(l) && old(sys.leaf)[l].cow
                && (Sharers(old(sys), old(sys.leaf)[l].frame) <= 1 || old(sys.free) != {})
      ensures ok ==> ghost var l := PathOf(cur, addr);
        l in sys.leaf && sys.leaf[l].write && !sys.leaf[l].cow
    {
      ghost var l := PathOf(cur, addr);
      GrownSame(sys, l);
      if !(isPresent && isWrite) || addr >= USER_SPACE_TOP {
        return false;
      }
      var page := AlignDown(addr);
      SamePage(cur, addr);
      PathShape(cur, page);
      PteIsFlat(sys, None, cur, page);
      assert LeafOk(sys.tree, sys.leaf, sys.users, l);
      var pte := GetPte(mem, cur, page);
      if pte.None? {
        return false;
      }
      var (t, i) := pte.value;
      Step(sys, None, l.up, l.idx);
      assert NodeOk(mem, sys.tree, sys.owner, l.up);
      var e := mem[t].entries[i];
      if !(e.present && e.user && e.cow) {
        return false;
      }
      assert UserOk(sys, e.frame, None);
      ok := ResolveCow(t, i, e, l);
    }

    method ResolveCow(t: nat, i: nat, e: Pte, ghost l: Path) returns (ok: bool)
      requires Valid(None) && l in sys.leaf && IsPrivate(l) && sys.leaf[l] == e && e.cow
      requires l.Sub? && l.up in sys.tree && t == sys.tree[l.up] && i == l.idx
      requires e.frame in sys.users && UserOk(sys, e.frame, None)
      modifies this`mem, this`sys, pmm, pmm.bitmap, pmm.refcount
      ensures Valid(None) && Kept(old(sys), sys) && sys.tree == old(sys.tree)
      ensures Pages(sys) == Pages(old(sys))
      ensures !ok ==> sys == old(sys)
      ensures ok <==> Sharers(old(sys), e.frame) <= 1 || old(sys.free) != {}
      ensures ok ==> l in sys.leaf && sys.leaf[l].write && !sys.leaf[l].cow
    {
      var count := pmm.Refcount(e.frame);
      if count <= 1 {
        FaultReuse(sys, l);
        WriteLeaf(t, i, Writable(e, e.frame), l, None);
        return true;
      }
      ok := CopyCow(t, i, e, l);
    }

    method CopyCow(t: nat, i: nat, e: Pte, ghost l: Path) returns (ok: bool)
      requires Valid(None) && l in sys.leaf && IsPrivate(l) && sys.leaf[l] == e && e.cow
      requires l.Sub? && l.up in sys.tree && t == sys.tree[l.up] && i == l.idx
      requires e.frame in sys.users && UserOk(sys, e.frame, None)
      modifies this`mem, this`sys, pmm, pmm.bitmap, pmm.refcount
      ensures Valid(None) && Kept(old(sys), sys) && sys.tree == old(sys.tree)
      ensures Pages(sys) == Pages(old(sys))
      ensures !ok ==> sys == old(sys)
      ensures ok <==> old(sys.free) != {}
      ensures ok ==> l in sys.leaf && sys.leaf[l].write && !sys.leaf[l].cow
    {
      GrownSame(sys, l);
      var r := HoldPage(mem[e.frame].bytes);
      if r.None? {
        return false;
      }
      ghost var s1 := sys;
      assert e.frame != r.value;
      FaultCopy(sys, l, r.value);
      WriteLeaf(t, i, Writable(e, r.value), l, None);
      KeptTrans(old(sys), s1, sys);
      ghost var s2 := sys;
      Drop(e.frame);
      KeptTrans(old(sys), s2, sys);
      return true;
    }

    /** The root table of a new space: the kernel half of the current root, copied entry by entry. */
    method BuildRoot(low: nat) returns (rt: seq<Pte>)
      requires cur in mem && mem[cur].Table? && |mem[cur].entries| == ENTRIES
      ensures |rt| == ENTRIES && rt[0] == Pte(true, true, true, false, false, false, low)
      ensures forall i :: 1 <= i < 256 ==> rt[i] == NO_PTE
      ensures forall i :: 256 <= i < ENTRIES ==> rt[i] == mem[cur].entries[i]
    {
      rt := EmptyTable().entries;
      for i := 256 to ENTRIES
        invariant |rt| == ENTRIES
        invariant forall j :: 0 <= j < 256 || i <= j < ENTRIES ==> rt[j] == NO_PTE
        invariant forall j :: 256 <= j < i ==> rt[j] == mem[cur].entries[j]
      {
        rt := rt[i := mem[cur].entries[i]];
      }
      rt := rt[0 := Pte(true, true, true, false, false, false, low)];
    }

    /** Two frames, the first given back when the second is not to be had. */
    method AllocTwo() returns (r: Option<(nat, nat)>)
      requires pmm.Valid()
      modifies pmm, pmm.bitmap, pmm.refcount
      ensures pmm.Valid()
      ensures r.None? <==> |old(pmm.free)| < 2
      ensures r.None? ==> pmm.free == old(pmm.free) && pmm.rc == old(pmm.rc)
      ensures r.Some? ==> ghost var (a, b) := r.value;
        && a in old(pmm.free) && b in old(pmm.free) && a != b
        && pmm.free == old(pmm.free) - {a} - {b}
        && |old(pmm.rc)| == |pmm.rc| && a < |pmm.rc| && b < |pmm.rc|
        && pmm.rc == old(pmm.rc)[a := 1][b := 1]
    {
      hide Sound;
      var first := pmm.AllocFrame();
      if first.None? {
        return None;
      }
      var second := pmm.AllocFrame();
      if second.None? {
        pmm.FreeFrame(first.value);
        assert old(pmm.free) == {first.value};
        return None;
      }
      SubsetSize({first.value, second.value}, old(pmm.free));
      return Some((first.value, second.value));
    }

    /** A new space with nothing mapped below the kernel half but the identity
        window. Fails, and changes nothing, exactly when two frames are not to be had. */
    method CreateAddressSpace() returns (r: Option<nat>)
      requires Valid(None) && SpacesOk()
      modifies this`mem, this`sys, this`spaces, pmm, pmm.bitmap, pmm.refcount
      ensures Valid(None) && SpacesOk() && Kept(old(sys), sys) && Maps(sys) == Maps(old(sys))
      ensures r.None? <==> |old(sys.free)| < 2
      ensures r.None? ==> spaces == old(spaces) && sys == old(sys)
      ensures r.Some? ==>
        && r.value !in old(spaces) && spaces == old(spaces) + {r.value}
        && SpaceAdded(old(sys), sys, r.value)
    {
      GrownSame(sys, Root(Shared));
      var two := AllocTwo();
      if two.None? {
        return None;
      }
      var (root, low) := two.value;
      InstallSpace(root, low);
      return Some(root);
    }

    /** Fills the two freshly allocated frames of a new space. */
    method InstallSpace(root: nat, low: nat)
      requires pmm.Valid() && sys.mem == mem && Inv(sys, None) && SpacesOk()
      requires root in sys.free && low in sys.free && root != low && root < |sys.rc| && low < |sys.rc|
      requires pmm.free == sys.free - {root} - {low} && pmm.rc == sys.rc[root := 1][low := 1]
      modifies this`mem, this`sys, this`spaces
      ensures Valid(None) && SpacesOk() && Kept(old(sys), sys) && Maps(sys) == Maps(old(sys))
      ensures root !in old(spaces) && spaces == old(spaces) + {root}
      ensures SpaceAdded(old(sys), sys, root)
    {
      CurrentTables(sys, cur);
      var rt := BuildRoot(low);
      var curLow := mem[cur].entries[0].frame;
      var lt := EmptyTable().entries[0 := mem[curLow].entries[0]];
      CreateSpace(sys, cur, root, low, rt, lt);
      SpacesWith(sys, NewSpace(sys, root, low, rt, lt), spaces, cur, root);
      mem := mem[root := Table(rt)];
      mem := mem[low := Table(lt)];
      sys := NewSpace(sys, root, low, rt, lt);
      spaces := spaces + {root};
    }

    /** Frees the page behind leaf l and clears its entry t[i]. */
    method DestroyLeaf(t: nat, i: nat, ghost l: Path)
      requires Valid(None) && l.Sub? && l.up in sys.tree && sys.tree[l.up] == t && l.idx == i
      requires l in sys.leaf && IsPrivate(l)
      modifies this`mem, this`sys, pmm, pmm.bitmap, pmm.refcount
      ensures Valid(None) && sys.tree == old(sys.tree)
      ensures Maps(sys) == Maps(old(sys)) - {l} && Kept(old(sys), sys)
    {
      hide Sound, Maps;
      assert LeafOk(sys.tree, sys.leaf, sys.users, l);
      assert NodeOk(mem, sys.tree, sys.owner, l.up) && EntryOk(mem, sys.tree, sys.leaf, l.up, i);
      Step(sys, None, l.up, i);
      assert CanSet(sys, l, NO_PTE, None);
      var f := mem[t].entries[i].frame;
      ghost var s1 := SetLeaf(sys, l, NO_PTE);
      SetLeafInv(sys, l, NO_PTE, None);
      SetLeafView(sys, l, NO_PTE, None);
      SetLeafKept(sys, l, NO_PTE, None);
      DropHeldInv(s1, f);
      DropHeldView(s1, f);
      KeptTrans(sys, s1, DropHeld(s1, f));
      pmm.FreeFrame(f);
      mem := SetEntry(mem, t, i, NO_PTE);
      sys := DropHeld(s1, f);
    }

    /** Unlinks and frees the childless table at c, entry t[i] of its parent. */
    method DestroyEmpty(t: nat, i: nat, ghost c: Path)
      requires Valid(None) && CanRemove(sys, c, None) && c.Sub?
      requires sys.tree[c.up] == t && c.idx == i
      modifies this`mem, this`sys, pmm, pmm.bitmap, pmm.refcount
      ensures Valid(None) && sys.tree == old(sys.tree) - {c}
      ensures Maps(sys) == Maps(old(sys)) && Kept(old(sys), sys)
    {
      RemoveTableInv(sys, c, None);
      RemoveView(sys, c, None);
      pmm.FreeFrame(mem[t].entries[i].frame);
      mem := SetEntry(mem, t, i, NO_PTE);
      sys := RemoveTable(sys, c);
    }

    /** Empties the private table t at p: frees its pages, or the tables below it.
        The levels are the nested loops of the source: 4 for the root down to 1
        for a page table; low marks the table with the identity window. */
    method DestroyTable(t: nat, level: nat, low: bool, ghost p: Path)
      requires Valid(None) && p in sys.tree && sys.tree[p] == t && IsPrivate(p)
      requires level == 4 - Depth(p) && 1 <= level <= 4
      requires low <==> p.Sub? && p.up.Root? && p.idx == 0
      modifies this`mem, this`sys, pmm, pmm.bitmap, pmm.refcount
      ensures Valid(None) && Emptied(old(sys), sys, p)
      decreases level
    {
      PrunedStart(sys, p);
      for i := 0 to OwnEntries(level)
        invariant Valid(None) && p in sys.tree && sys.tree[p] == t
        invariant Pruned(old(sys), sys, p, i)
      {
        DestroyEntry(t, level, low, i, p, old(sys));
      }
      forall i: nat | i >= OwnEntries(level) ensures Sub(p, i) !in old(sys).tree && Sub(p, i) !in old(sys).leaf {
        NotOwn(old(sys), p, i);
      }
      PrunedEnd(old(sys), sys, p, OwnEntries(level));
    }

    method DestroyEntry(t: nat, level: nat, low: bool, i: nat, ghost p: Path, ghost s0: Sys)
      requires Valid(None) && p in sys.tree && sys.tree[p] == t && IsPrivate(p)
      requires level == 4 - Depth(p) && 1 <= level <= 4 && i < OwnEntries(level)
      requires low <==> p.Sub? && p.up.Root? && p.idx == 0
      requires Pruned(s0, sys, p, i)
      modifies this`mem, this`sys, pmm, pmm.bitmap, pmm.refcount
      ensures Valid(None) && p in sys.tree && sys.tree[p] == t
      ensures Pruned(s0, sys, p, i + 1)
      decreases level, 1
    {
      ghost var c, s1 := Sub(p, i), sys;
      GrownSame(sys, p);
      if low && i == 0 {
        NotOwn(sys, p, i);
        PrunedEntry(s0, sys, sys, p, i);
        return;
      }
      PrivateEntry(sys, p, i);
      var e := mem[t].entries[i];
      if !e.present {
        PrunedEntry(s0, sys, sys, p, i);
        return;
      }
      assert !e.huge;
      if level == 1 {
        DestroyLeaf(t, i, c);
        PrunedEntry(s0, s1, sys, p, i);
      } else {
        DestroySubtable(t, level, i, p, s0);
      }
    }

    method DestroySubtable(t: nat, level: nat, i: nat, ghost p: Path, ghost s0: Sys)
      requires Valid(None) && p in sys.tree && sys.tree[p] == t && IsPrivate(p)
      requires level == 4 - Depth(p) && 2 <= level <= 4 && i < OwnEntries(level)
      requires t in mem && mem[t].Table? && |mem[t].entries| == ENTRIES
      requires ghost var c := Sub(p, i);
        c in sys.tree && IsPrivate(c) && sys.tree[c] == mem[t].entries[i].frame && c !in sys.leaf
      requires Pruned(s0, sys, p, i)
      modifies this`mem, this`sys, pmm, pmm.bitmap, pmm.refcount
      ensures Valid(None) && p in sys.tree && sys.tree[p] == t
      ensures Pruned(s0, sys, p, i + 1)
      decreases level, 0
    {
      hide Kept, Sound, Pruned, Emptied;
      ghost var c, s1 := Sub(p, i), sys;
      DestroyTable(mem[t].entries[i].frame, level - 1, level == 4 && i == 0, c);
      ghost var s2 := sys;
      EmptiedRemovable(s1, sys, c);
      DestroyEmpty(t, i, c);
      PrunedTable(s0, s1, s2, sys, p, i);
    }

    /** Destroys a space: its tables, its root and its share of every page. */
    method DestroyUserAddressSpace(root: nat)
      requires Valid(None) && SpacesOk() && root in spaces && root != cur
      modifies this`mem, this`sys, this`spaces, pmm, pmm.bitmap, pmm.refcount
      ensures Valid(None) && SpacesOk() && spaces == old(spaces) - {root}
      ensures SpaceRemoved(old(sys), sys, root)
    {
      hide Kept, Sound, Maps, Pruned, Emptied, Grown;
      ghost var c := Root(Private(root));
      assert NodeOk(mem, sys.tree, sys.owner, c);
      DestroyTable(root, 4, false, c);
      RootRemoved(old(sys), sys, root);
      RemoveTableInv(sys, c, None);
      pmm.FreeFrame(root);
      sys := RemoveTable(sys, c);
      SpacesWithout(old(sys), sys, spaces, cur, root);
      spaces := spaces - {root};
    }

    /** Takes a reference to the page of leaf l and makes the leaf copy-on-write. */
    method ShareRef(t: nat, i: nat, ghost l: Path)
      requires Valid(None) && l.Sub? && l.up in sys.tree && sys.tree[l.up] == t && l.idx == i
      requires l in sys.leaf && IsPrivate(l) && Sharers(sys, sys.leaf[l].frame) < REFCOUNT_MAX
      modifies this`mem, this`sys, pmm, pmm.bitmap, pmm.refcount
      ensures ghost var e := old(sys.leaf)[l];
        && Valid(Some(e.frame)) && Maps(sys) == Maps(old(sys)) && Kept(old(sys), sys)
        && sys.tree == old(sys.tree) && sys.users == old(sys.users) && sys.free == old(sys.free)
        && sys.leaf == old(sys.leaf)[l := Cow(e)]
    {
      hide Kept, Sound, Maps;
      assert NodeOk(mem, sys.tree, sys.owner, l.up);
      assert LeafOk(sys.tree, sys.leaf, sys.users, l);
      Step(sys, None, l.up, i);
      var e := mem[t].entries[i];
      ShareStart(sys, l);
      ShareReady(sys, l);
      pmm.RefFrame(e.frame);
      if e.write {
        mem := SetEntry(mem, t, i, Cow(e));
      }
      sys := RefLeaf(sys, l);
    }

    /** Shares the page of leaf l with space d. */
    method ShareLeaf(t: nat, i: nat, virt: nat, d: nat, ghost l: Path, ghost src: nat) returns (ok: bool)
      requires Valid(None) && l.Sub? && l.up in sys.tree && sys.tree[l.up] == t && l.idx == i
      requires l in sys.leaf && SpaceOf(l) == Private(src) && Sharers(sys, sys.leaf[l].frame) < REFCOUNT_MAX
      requires HasSpace(sys, d) && src != d && CopyOnly(sys, src, d)
      requires IDENTITY_TOP <= virt < USER_SPACE_TOP && PathOf(d, virt) == Move(l, d) && Move(l, d) !in sys.leaf
      modifies this`mem, this`sys, pmm, pmm.bitmap, pmm.refcount
      ensures Valid(None) && Grew(old(sys), sys, src, d)
      ensures ok ==> Copied(old(sys), sys, src, d, {l}) && CopyOnly(sys, src, d) && Move(l.up, d) in sys.tree
      ensures !ok ==> sys.free == {} && Move(l.up, d) !in sys.tree
    {
      ghost var s0 := sys;
      var e := EntryIn(mem, t, i);
      assert LeafOk(sys.tree, sys.leaf, sys.users, l);
      Step(sys, None, l.up, i);
      ShareRef(t, i, l);
      ok := ShareMap(e, virt, d, s0, l, src);
      if !ok {
        ghost var s3 := sys;
        Drop(e.frame);
        GrewKeep(s0, s3, sys, src, d);
      }
    }

    /** Maps the page behind e, which the caller holds, in space d as well. */
    method ShareMap(e: Pte, virt: nat, d: nat, ghost s0: Sys, ghost l: Path, ghost src: nat) returns (ok: bool)
      requires Valid(Some(e.frame)) && Inv(s0, None) && l in s0.leaf && s0.leaf[l] == e && SpaceOf(l) == Private(src)
      requires Maps(sys) == Maps(s0) && Kept(s0, sys) && sys.tree == s0.tree && sys.free == s0.free
      requires sys.leaf == s0.leaf[l := Cow(e)] && l.Sub? && e.present && e.user && !e.huge
      requires HasSpace(sys, d) && src != d && CopyOnly(sys, src, d)
      requires IDENTITY_TOP <= virt < USER_SPACE_TOP && PathOf(d, virt) == Move(l, d) && Move(l, d) !in sys.leaf
      modifies this`mem, this`sys, pmm, pmm.bitmap, pmm.refcount
      ensures Valid(if ok then None else Some(e.frame)) && Grew(s0, sys, src, d)
      ensures ok ==> Copied(s0, sys, src, d, {l}) && CopyOnly(sys, src, d) && Move(l.up, d) in sys.tree
      ensures !ok ==> sys.free == {} && Move(l.up, d) !in sys.tree && Sharers(sys, e.frame) > 0
      ensures !ok ==> Maps(sys) == Maps(s0)
    {
      hide Kept, Sound;
      ghost var s2 := sys;
      UserIsPrivate(d, virt);
      PathShape(d, virt);
      ShareSafe(sys, l, src, d, Some(e.frame));
      assert LeafOk(sys.tree, sys.leaf, sys.users, l);
      var flags := Flags(false, e.user, e.cow || e.write, e.nx);
      assert PageOf(mem, LeafEntry(e.frame, flags)) == Maps(s2)[l];
      ok := MapPage(d, virt, e.frame, flags, Some(e.frame));
      ShareGrewTree(s0, sys, l, src, d);
      KeptTrans(s0, s2, sys);
      if ok {
        ShareCopied(s0, sys, l, src, d);
      } else {
        NoHugeUser(sys, Some(e.frame), d, virt);
        OneSharer(sys, l, e.frame);
      }
    }

    /** Shares the page behind entry i of the page table t at p with space d, if there is one. */
    method CloneLeaf(t: nat, i: nat, p: Path, d: nat, ghost src: nat, ghost s0: Sys)
      returns (ok: bool, ghost missing: Path)
      requires Valid(None) && Cloning(sys, spaces, cur, src, d) && CopyingAt(s0, sys, src, d, p, i)
      requires sys.tree[p] == t && Depth(p) == 3 && i < ENTRIES && Move(Sub(p, i), d) !in Maps(s0)
      modifies this`mem, this`sys, pmm, pmm.bitmap, pmm.refcount
      ensures Valid(None) && Grew(s0, sys, src, d)
      ensures ok ==> Cloning(sys, spaces, cur, src, d) && CopyingAt(s0, sys, src, d, p, i + 1)
      ensures !ok ==> Starved(s0, sys, src, d, missing)
    {
      hide Inv, Kept, Copied, SameElsewhere, Sound, Maps;
      ghost var l, s1 := Sub(p, i), sys;
      missing := p;
      PrivateEntry(sys, p, i);
      var e := EntryIn(mem, t, i);
      if !(e.present && e.user) {
        CopySkip(s0, sys, src, d, p, i);
        return true, missing;
      }
      CopyLeafReady(s0, sys, spaces, cur, src, d, p, i);
      ok := ShareLeaf(t, i, VirtOf(p, i), d, l, src);
      if ok {
        StillCloning(s1, sys, spaces, cur, src, d);
        CopyLeafDone(s0, s1, sys, src, d, p, i);
      } else {
        GrewTrans(s0, s1, sys, src, d);
      }
    }

    /** Copies what hangs under the private table t at p to space d; levels as for DestroyTable. */
    method CloneTable(t: nat, level: nat, low: bool, p: Path, d: nat, ghost src: nat)
      returns (ok: bool, ghost missing: Path)
      requires Valid(None) && Cloning(sys, spaces, cur, src, d)
      requires p in sys.tree && sys.tree[p] == t && SpaceOf(p) == Private(src)
      requires level == 4 - Depth(p) && 1 <= level <= 4
      requires low <==> p.Sub? && p.up.Root? && p.idx == 0
      requires NoCopies(sys, p, d)
      modifies this`mem, this`sys, pmm, pmm.bitmap, pmm.refcount
      ensures Valid(None) && Grew(old(sys), sys, src, d)
      ensures ok ==> Cloning(sys, spaces, cur, src, d) && Copied(old(sys), sys, src, d, Whole(old(sys), p))
      ensures !ok ==> Starved(old(sys), sys, src, d, missing)
      decreases level
    {
      missing := p;
      CopyStart(sys, src, d, p);
      for i := 0 to OwnEntries(level)
        invariant Valid(None) && Cloning(sys, spaces, cur, src, d) && CopyingAt(old(sys), sys, src, d, p, i)
      {
        ok, missing := CloneEntry(t, level, low, i, p, d, src, old(sys));
        if !ok {
          return;
        }
      }
      CopyEnd(old(sys), sys, src, d, p, OwnEntries(level));
      return true, missing;
    }

    method CloneEntry(t: nat, level: nat, low: bool, i: nat, p: Path, d: nat, ghost src: nat, ghost s0: Sys)
      returns (ok: bool, ghost missing: Path)
      requires Valid(None) && Cloning(sys, spaces, cur, src, d) && CopyingAt(s0, sys, src, d, p, i)
      requires sys.tree[p] == t && level == 4 - Depth(p) && 1 <= level <= 4 && i < OwnEntries(level)
      requires low <==> p.Sub? && p.up.Root? && p.idx == 0
      requires NoCopies(s0, p, d)
      modifies this`mem, this`sys, pmm, pmm.bitmap, pmm.refcount
      ensures Valid(None) && Grew(s0, sys, src, d)
      ensures ok ==> Cloning(sys, spaces, cur, src, d) && CopyingAt(s0, sys, src, d, p, i + 1)
      ensures !ok ==> Starved(s0, sys, src, d, missing)
      decreases level, 1
    {
      missing := p;
      if low && i == 0 {
        NotOwn(sys, p, i);
        CopySkip(s0, sys, src, d, p, i);
        return true, missing;
      }
      if level == 1 {
        assert Under(Sub(p, i), p);
        ok, missing := CloneLeaf(t, i, p, d, src, s0);
        return;
      }
      PrivateEntry(sys, p, i);
      var e := EntryIn(mem, t, i);
      if !e.present {
        CopySkip(s0, sys, src, d, p, i);
        return true, missing;
      }
      assert !e.huge;
      ok, missing := CloneSubtable(e.frame, level, i, p, d, src, s0);
    }

    method CloneSubtable(child: nat, level: nat, i: nat, p: Path, d: nat, ghost src: nat, ghost s0: Sys)
      returns (ok: bool, ghost missing: Path)
      requires Valid(None) && Cloning(sys, spaces, cur, src, d) && CopyingAt(s0, sys, src, d, p, i)
      requires level == 4 - Depth(p) && 2 <= level <= 4
      requires Sub(p, i) in sys.tree && sys.tree[Sub(p, i)] == child && Sub(p, i) !in sys.leaf
      requires NoCopies(s0, p, d)
      modifies this`mem, this`sys, pmm, pmm.bitmap, pmm.refcount
      ensures Valid(None) && Grew(s0, sys, src, d)
      ensures ok ==> Cloning(sys, spaces, cur, src, d) && CopyingAt(s0, sys, src, d, p, i + 1)
      ensures !ok ==> Starved(s0, sys, src, d, missing)
      decreases level, 0
    {
      ghost var c, s1 := Sub(p, i), sys;
      CopyTableReady(s0, sys, src, d, p, i);
      ok, missing := CloneTable(child, level - 1, level == 4 && i == 0, Sub(p, i), d, src);
      if ok {
        CopyTableDone(s0, s1, sys, src, d, p, i);
      } else {
        NeededSame(s0, s1, src, d);
        GrewTrans(s0, s1, sys, src, d);
      }
    }

    /** Fork: the new space sees exactly the pages of src, shared copy-on-write.
        It fails exactly when the free frames do not cover the tables it needs,
        and then tables, mappings and the allocator are as before. */
    method CloneUserAddressSpace(src: nat) returns (r: Option<nat>)
      requires Valid(None) && SpacesOk() && src in spaces && |spaces| < REFCOUNT_MAX
      modifies this`mem, this`sys, this`spaces, pmm, pmm.bitmap, pmm.refcount
      ensures Valid(None) && SpacesOk() && Kept(old(sys), sys)
      ensures r.Some? <==> |old(sys.free)| >= |Needed(old(sys), src)|
      ensures r.Some? ==>
        && r.value !in old(spaces) && spaces == old(spaces) + {r.value}
        && Forked(Maps(old(sys)), Maps(sys), src, r.value)
        && SameTables(old(sys), sys, r.value)
      ensures r.None? ==>
        && spaces == old(spaces) && sys.tree == old(sys.tree) && Maps(sys) == Maps(old(sys))
        && sys.free == old(sys.free) && sys.rc == old(sys.rc)
    {
      hide Inv, Kept, Sound, GrewTree, SameElsewhere, Copied, Forked, NoCopies, SameTables;
      NeededTwo(sys, src);
      r := CreateAddressSpace();
      if r.None? {
        return;
      }
      ghost var s1 := sys;
      CloneReady(old(sys), sys, src, r.value);
      var ok, missing := CloneTable(src, 4, false, Root(Private(src)), r.value, src);
      if ok {
        CloneServed(old(sys), s1, sys, src, r.value);
        CloneForked(old(sys), s1, sys, src, r.value);
        CloneSameTables(old(sys), s1, sys, src, r.value);
        KeptTrans(old(sys), s1, sys);
        return;
      }
      ghost var s2 := sys;
      CloneStarved(old(sys), s1, sys, src, r.value, missing);
      SpacesGrew(s1, sys, spaces, cur, src, r.value);
      DestroyUserAddressSpace(r.value);
      CloneUndone(old(sys), s1, s2, sys, src, r.value);
      return None;
    }
  }
}
