/** Table walks, and the flat map from page to entry that they compute. */
module Walk {
  import opened Wrappers
  import opened Paging
  import opened Pmm
  import opened Tables

  function EntryIn(mem: map<nat, Content>, t: nat, i: nat): Pte
  {
    if t in mem && mem[t].Table? && i < |mem[t].entries| then mem[t].entries[i] else NO_PTE
  }

  /** The position of the 4 KiB leaf for virt in the space rooted at root. */
  function PathOf(root: nat, virt: nat): Path
  {
    Child(Child(Child(Child(Root(Private(root)), Pml4Idx(virt)), PdptIdx(virt)), PdIdx(virt)), PtIdx(virt))
  }

  /** The entry that finally maps virt, as vmm_get_flags finds it. */
  function FinalEntry(mem: map<nat, Content>, root: nat, virt: nat): Pte
  {
    var e4 := EntryIn(mem, root, Pml4Idx(virt));
    if !e4.present then NO_PTE else
    var e3 := EntryIn(mem, e4.frame, PdptIdx(virt));
    if !e3.present then NO_PTE else if e3.huge then e3 else
    var e2 := EntryIn(mem, e3.frame, PdIdx(virt));
    if !e2.present then NO_PTE else if e2.huge then e2 else
    var e1 := EntryIn(mem, e2.frame, PtIdx(virt));
    if !e1.present then NO_PTE else e1
  }

  /** The physical address behind virt, as vmm_get_physical finds it. */
  function GetPhysical(mem: map<nat, Content>, root: nat, virt: nat): Option<nat>
  {
    var e4 := EntryIn(mem, root, Pml4Idx(virt));
    if !e4.present then None else
    var e3 := EntryIn(mem, e4.frame, PdptIdx(virt));
    if !e3.present then None else
    if e3.huge then Some(e3.frame / 0x4_0000 * 0x4000_0000 + virt % 0x4000_0000) else
    var e2 := EntryIn(mem, e3.frame, PdIdx(virt));
    if !e2.present then None else
    if e2.huge then Some(e2.frame / 0x200 * 0x20_0000 + virt % 0x20_0000) else
    var e1 := EntryIn(mem, e2.frame, PtIdx(virt));
    if !e1.present then None else Some(e1.frame * PAGE_SIZE + virt % PAGE_SIZE)
  }

  /** The table and slot of the 4 KiB entry for virt, as vmm_get_pte finds it. */
  function GetPte(mem: map<nat, Content>, root: nat, virt: nat): Option<(nat, nat)>
  {
    var e4 := EntryIn(mem, root, Pml4Idx(virt));
    if !e4.present then None else
    var e3 := EntryIn(mem, e4.frame, PdptIdx(virt));
    if !e3.present || e3.huge then None else
    var e2 := EntryIn(mem, e3.frame, PdIdx(virt));
    if !e2.present || e2.huge then None else
    Some((e2.frame, PtIdx(virt)))
  }

  /** The specification: one flat map of leaves, 2 MiB leaves covering 512 pages. */
  ghost function Flat(leaf: map<Path, Pte>, root: nat, virt: nat): Pte
  {
    var l := PathOf(root, virt);
    if l in leaf then leaf[l]
    else if l.Sub? && l.up in leaf then leaf[l.up]
    else NO_PTE
  }

  ghost predicate HasSpace(s: Sys, root: nat)
  {
    Root(Private(root)) in s.tree && Sub(Root(Private(root)), 0) in s.tree
  }

  /** One step of a walk: the entry leads to a table, to a leaf, or nowhere. */
  lemma Step(s: Sys, held: Option<nat>, p: Path, i: nat)
    requires Inv(s, held) && p in s.tree && i < ENTRIES
    ensures var e := EntryIn(s.mem, s.tree[p], i); var c := Child(p, i);
      && EntryMeans(s.tree, s.leaf, p, i, e)
      && EntryAt(s.mem, s.tree, p, i) == e
  {
    assert NodeOk(s.mem, s.tree, s.owner, p);
    assert EntryOk(s.mem, s.tree, s.leaf, p, i);
  }

  /** What lies directly under a missing table is neither a table nor mapped. */
  lemma NotMapped(s: Sys, held: Option<nat>, c: Path, k: nat)
    requires Inv(s, held) && c !in s.tree && c.Sub? && (c.up.Root? ==> c.idx != 0)
    ensures Child(c, k) == Sub(c, k) && Sub(c, k) !in s.tree && Sub(c, k) !in s.leaf
  {
    assert NodeOk(s.mem, s.tree, s.owner, Sub(c, k));
    assert LeafOk(s.tree, s.leaf, s.users, Sub(c, k));
  }

  /** The tables on the way to the leaf for virt. */
  function Pdpt(root: nat, virt: nat): Path { Child(Root(Private(root)), Pml4Idx(virt)) }
  function Pd(root: nat, virt: nat): Path { Child(Pdpt(root, virt), PdptIdx(virt)) }
  function Pt(root: nat, virt: nat): Path { Child(Pd(root, virt), PdIdx(virt)) }

  lemma PathShape(root: nat, virt: nat)
    ensures Depth(Pdpt(root, virt)) == 1 && IsPos(Pdpt(root, virt))
    ensures Depth(Pd(root, virt)) == 2 && IsPos(Pd(root, virt))
    ensures Depth(Pt(root, virt)) == 3 && IsPos(Pt(root, virt))
    ensures Pt(root, virt) == Sub(Pd(root, virt), PdIdx(virt))
    ensures PathOf(root, virt) == Sub(Pt(root, virt), PtIdx(virt)) && IsPos(PathOf(root, virt))
    ensures Depth(PathOf(root, virt)) == 4
  {}

  /** An intermediate table is missing: nothing is mapped there. */
  lemma FlatMissing(s: Sys, held: Option<nat>, root: nat, virt: nat)
    requires Inv(s, held) && HasSpace(s, root)
    requires Pdpt(root, virt) !in s.tree || Pd(root, virt) !in s.tree
    ensures Pt(root, virt) !in s.tree && Pt(root, virt) !in s.leaf && PathOf(root, virt) !in s.leaf
    ensures Flat(s.leaf, root, virt) == NO_PTE
  {
    PathShape(root, virt);
    if Pdpt(root, virt) !in s.tree {
      assert Pdpt(root, virt) != Sub(Root(Private(root)), 0);
      NotMapped(s, held, Pdpt(root, virt), PdptIdx(virt));
    }
    NotMapped(s, held, Pd(root, virt), PdIdx(virt));
    NotMapped(s, held, Pt(root, virt), PtIdx(virt));
  }

  /** Below an existing page directory the walk reads the flat map. */
  lemma FlatBelow(s: Sys, held: Option<nat>, root: nat, virt: nat)
    requires Inv(s, held) && Pd(root, virt) in s.tree
    ensures var e2 := EntryIn(s.mem, s.tree[Pd(root, virt)], PdIdx(virt));
      && (!e2.present ==> Pt(root, virt) !in s.tree && Flat(s.leaf, root, virt) == NO_PTE)
      && (e2.present && e2.huge ==> Flat(s.leaf, root, virt) == e2 && PathOf(root, virt) !in s.leaf)
      && (e2.present && !e2.huge ==>
            && Pt(root, virt) in s.tree && s.tree[Pt(root, virt)] == e2.frame
            && Flat(s.leaf, root, virt) == EntryIn(s.mem, e2.frame, PtIdx(virt))
            && (Flat(s.leaf, root, virt).present <==> PathOf(root, virt) in s.leaf))
  {
    PathShape(root, virt);
    Step(s, held, Pd(root, virt), PdIdx(virt));
    if Pt(root, virt) in s.tree {
      Step(s, held, Pt(root, virt), PtIdx(virt));
    } else {
      NotMapped(s, held, Pt(root, virt), PtIdx(virt));
    }
  }

  /** The four-level walk refines the flat map. */
  lemma WalkIsFlat(s: Sys, held: Option<nat>, root: nat, virt: nat)
    requires Inv(s, held) && HasSpace(s, root)
    ensures FinalEntry(s.mem, root, virt) == Flat(s.leaf, root, virt)
  {
    PathShape(root, virt);
    assert NodeOk(s.mem, s.tree, s.owner, Root(Private(root)));
    Step(s, held, Root(Private(root)), Pml4Idx(virt));
    if Pdpt(root, virt) in s.tree {
      Step(s, held, Pdpt(root, virt), PdptIdx(virt));
    }
    if Pdpt(root, virt) in s.tree && Pd(root, virt) in s.tree {
      FlatBelow(s, held, root, virt);
      if Pt(root, virt) in s.tree { Step(s, held, Pt(root, virt), PtIdx(virt)); }
    } else {
      FlatMissing(s, held, root, virt);
    }
  }

  /** The address lookup agrees with the flat map, page by page. */
  lemma PhysicalIsFlat(s: Sys, held: Option<nat>, root: nat, virt: nat)
    requires Inv(s, held) && HasSpace(s, root)
    ensures var e := Flat(s.leaf, root, virt);
      GetPhysical(s.mem, root, virt) ==
        if !e.present then None
        else if e.huge then Some(e.frame / 0x200 * 0x20_0000 + virt % 0x20_0000)
        else Some(e.frame * PAGE_SIZE + virt % PAGE_SIZE)
  {
    PathShape(root, virt);
    assert NodeOk(s.mem, s.tree, s.owner, Root(Private(root)));
    Step(s, held, Root(Private(root)), Pml4Idx(virt));
    if Pdpt(root, virt) in s.tree {
      Step(s, held, Pdpt(root, virt), PdptIdx(virt));
    }
    if Pdpt(root, virt) in s.tree && Pd(root, virt) in s.tree {
      FlatBelow(s, held, root, virt);
      if Pt(root, virt) in s.tree { Step(s, held, Pt(root, virt), PtIdx(virt)); }
    } else {
      FlatMissing(s, held, root, virt);
    }
  }

  /** No 1 GiB page is ever mapped: the walks meet huge entries in page directories only. */
  lemma NoHugePdpt(s: Sys, held: Option<nat>, root: nat, virt: nat)
    requires Inv(s, held) && HasSpace(s, root)
    ensures !EntryIn(s.mem, EntryIn(s.mem, root, Pml4Idx(virt)).frame, PdptIdx(virt)).huge ||
            !EntryIn(s.mem, root, Pml4Idx(virt)).present
  {
    PathShape(root, virt);
    assert NodeOk(s.mem, s.tree, s.owner, Root(Private(root)));
    Step(s, held, Root(Private(root)), Pml4Idx(virt));
    if Pdpt(root, virt) in s.tree {
      Step(s, held, Pdpt(root, virt), PdptIdx(virt));
    }
  }

  lemma NoHugeUser(s: Sys, held: Option<nat>, root: nat, virt: nat)
    requires Inv(s, held) && IDENTITY_TOP <= virt < USER_SPACE_TOP
    ensures !Flat(s.leaf, root, virt).huge
  {
    UserIsPrivate(root, virt);
    PathShape(root, virt);
    var l := PathOf(root, virt);
    assert LeafOk(s.tree, s.leaf, s.users, l);
    assert LeafOk(s.tree, s.leaf, s.users, l.up);
    assert SpaceOf(l.up) == SpaceOf(l);
  }

  /** The 4 KiB slot exists exactly when its page table does. */
  lemma PteIsFlat(s: Sys, held: Option<nat>, root: nat, virt: nat)
    requires Inv(s, held) && HasSpace(s, root)
    ensures var l := PathOf(root, virt);
      GetPte(s.mem, root, virt) == if l.up in s.tree then Some((s.tree[l.up], PtIdx(virt))) else None
  {
    PathShape(root, virt);
    assert NodeOk(s.mem, s.tree, s.owner, Root(Private(root)));
    Step(s, held, Root(Private(root)), Pml4Idx(virt));
    if Pdpt(root, virt) in s.tree {
      Step(s, held, Pdpt(root, virt), PdptIdx(virt));
    }
    if Pdpt(root, virt) in s.tree && Pd(root, virt) in s.tree {
      Step(s, held, Pd(root, virt), PdIdx(virt));
    } else {
      FlatMissing(s, held, root, virt);
    }
  }

  /** Index arithmetic: addresses below 2^48 and index quadruples are the same thing. */
  lemma IndexRoundTrip(i: nat, j: nat, k: nat, l: nat)
    requires i < ENTRIES && j < ENTRIES && k < ENTRIES && l < ENTRIES
    ensures var v := MakeVirt(i, j, k, l);
      Pml4Idx(v) == i && PdptIdx(v) == j && PdIdx(v) == k && PtIdx(v) == l && v % PAGE_SIZE == 0
  {
    var v := MakeVirt(i, j, k, l);
    assert v / PAGE_SIZE == ((i * ENTRIES + j) * ENTRIES + k) * ENTRIES + l;
    assert v / 0x20_0000 == (i * ENTRIES + j) * ENTRIES + k;
    assert v / 0x4000_0000 == i * ENTRIES + j;
  }

  lemma VirtRoundTrip(v: nat)
    requires v < VIRT_TOP
    ensures MakeVirt(Pml4Idx(v), PdptIdx(v), PdIdx(v), PtIdx(v)) == v / PAGE_SIZE * PAGE_SIZE
  {
    assert v / 0x20_0000 == v / PAGE_SIZE / ENTRIES;
    assert v / 0x4000_0000 == v / 0x20_0000 / ENTRIES;
    assert v / 0x80_0000_0000 == v / 0x4000_0000 / ENTRIES;
  }

  function AlignDown(v: nat): nat
  {
    v / PAGE_SIZE * PAGE_SIZE
  }

  /** All addresses of a page share one leaf. */
  lemma SamePage(root: nat, v: nat)
    ensures PathOf(root, AlignDown(v)) == PathOf(root, v)
  {
    var w := AlignDown(v);
    assert w / PAGE_SIZE == v / PAGE_SIZE;
    assert forall x: nat :: x / 0x20_0000 == x / PAGE_SIZE / ENTRIES;
    assert forall x: nat :: x / 0x4000_0000 == x / PAGE_SIZE / 0x4_0000;
    assert forall x: nat :: x / 0x80_0000_0000 == x / PAGE_SIZE / 0x800_0000;
    assert PtIdx(w) == PtIdx(v) && PdIdx(w) == PdIdx(v) && PdptIdx(w) == PdptIdx(v) && Pml4Idx(w) == Pml4Idx(v);
  }

  /** User addresses above the identity window have private leaves. */
  lemma UserIsPrivate(root: nat, virt: nat)
    requires IDENTITY_TOP <= virt < USER_SPACE_TOP
    ensures IsPrivate(PathOf(root, virt)) && SpaceOf(PathOf(root, virt)) == Private(root)
    ensures Pdpt(root, virt) == Sub(Root(Private(root)), Pml4Idx(virt)) && Pml4Idx(virt) < 256
    ensures Pd(root, virt) == Sub(Pdpt(root, virt), PdptIdx(virt))
  {
    assert virt / 0x80_0000_0000 < 256;
    assert virt / 0x80_0000_0000 == virt / 0x4000_0000 / ENTRIES;
    PathShape(root, virt);
    assert SpaceOf(Pdpt(root, virt)) == Private(root);
    assert Pd(root, virt) == Sub(Pdpt(root, virt), PdptIdx(virt));
    assert SpaceOf(Pt(root, virt)) == Private(root);
  }

  /** Different pages of a space have different places. */
  lemma PlacesDiffer(root: nat, a: nat, b: nat)
    requires IDENTITY_TOP <= a < USER_SPACE_TOP && IDENTITY_TOP <= b < USER_SPACE_TOP
    requires PathOf(root, a) == PathOf(root, b)
    ensures AlignDown(a) == AlignDown(b)
  {
    UserIsPrivate(root, a);
    UserIsPrivate(root, b);
    PathShape(root, a);
    PathShape(root, b);
    assert Pml4Idx(a) == Pml4Idx(b) && PdptIdx(a) == PdptIdx(b);
    assert PdIdx(a) == PdIdx(b) && PtIdx(a) == PtIdx(b);
    VirtRoundTrip(a);
    VirtRoundTrip(b);
  }

  /** Above the identity window the tables on the way to a leaf form one chain. */
  lemma ChainShape(root: nat, virt: nat)
    requires IDENTITY_TOP <= virt < VIRT_TOP
    ensures Pd(root, virt) == Sub(Pdpt(root, virt), PdptIdx(virt))
    ensures var l := PathOf(root, virt);
      Below(l, Pdpt(root, virt)) && Below(l, Pd(root, virt)) && Below(l, Pt(root, virt))
    ensures IsPrivate(PathOf(root, virt)) <==> Pdpt(root, virt) == Sub(Root(Private(root)), Pml4Idx(virt))
    ensures IsPrivate(PathOf(root, virt)) ==>
      IsPrivate(Pdpt(root, virt)) && IsPrivate(Pd(root, virt)) && IsPrivate(Pt(root, virt))
  {
    assert virt / 0x80_0000_0000 == virt / 0x4000_0000 / ENTRIES;
    PathShape(root, virt);
    var l := PathOf(root, virt);
    assert Below(l.up, Pt(root, virt));
    assert Below(Pt(root, virt), Pd(root, virt));
    assert Below(Pd(root, virt), Pdpt(root, virt));
    BelowSpace(l, Pdpt(root, virt));
    BelowSpace(l, Pd(root, virt));
    BelowSpace(l, Pt(root, virt));
  }

  /** The address of entry l of the page table at p. */
  function VirtOf(p: Path, l: nat): nat
  {
    if p.Sub? && p.up.Sub? && p.up.up.Sub? then MakeVirt(p.up.up.idx, p.up.idx, p.idx, l) else 0
  }

  /** The address that the clone loops compute leads to the same position in the new space. */
  lemma VirtOfLeaf(p: Path, i: nat, d: nat)
    requires IsPos(Sub(p, i)) && IsPrivate(p) && Depth(p) == 3
    ensures IDENTITY_TOP <= VirtOf(p, i) < USER_SPACE_TOP
    ensures PathOf(d, VirtOf(p, i)) == Move(Sub(p, i), d)
  {
    assert Depth(p.up) == 2 && Depth(p.up.up) == 1 && Depth(p.up.up.up) == 0;
    assert SpaceOf(p.up) == SpaceOf(p) && SpaceOf(p.up.up) == SpaceOf(p) && SpaceOf(p.up.up.up) == SpaceOf(p);
    assert IsPos(p) && IsPos(p.up);
    assert IsPos(p.up.up);
    IndexRoundTrip(p.up.up.idx, p.up.idx, p.idx, i);
    var r := Root(Private(d));
    assert Move(p.up.up, d) == Sub(r, p.up.up.idx);
    assert Move(p.up, d) == Sub(Sub(r, p.up.up.idx), p.up.idx);
    assert Move(p, d) == Sub(Move(p.up, d), p.idx);
  }

  predicate Lets(e: Pte, write: bool)
  {
    e.present && e.user && (write ==> e.write)
  }

  /** What the processor asks of a user access: every entry on the way must let it through. */
  predicate UserMay(mem: map<nat, Content>, root: nat, virt: nat, write: bool)
  {
    var e4 := EntryIn(mem, root, Pml4Idx(virt));
    Lets(e4, write) &&
    var e3 := EntryIn(mem, e4.frame, PdptIdx(virt));
    Lets(e3, write) && (e3.huge ||
    var e2 := EntryIn(mem, e3.frame, PdIdx(virt));
    Lets(e2, write) && (e2.huge ||
    var e1 := EntryIn(mem, e2.frame, PtIdx(virt));
    Lets(e1, write)))
  }

  /** The upper levels never stand in the way of a user page: the leaf decides. */
  lemma LeafDecides(s: Sys, held: Option<nat>, root: nat, virt: nat, write: bool)
    requires Inv(s, held) && HasSpace(s, root)
    ensures var l := PathOf(root, virt);
      UserMay(s.mem, root, virt, write) <==> l in s.leaf && IsPrivate(l) && (write ==> s.leaf[l].write)
  {
    var l := PathOf(root, virt);
    PathShape(root, virt);
    assert NodeOk(s.mem, s.tree, s.owner, Root(Private(root)));
    Step(s, held, Root(Private(root)), Pml4Idx(virt));
    if Pdpt(root, virt) in s.tree { Step(s, held, Pdpt(root, virt), PdptIdx(virt)); }
    if Pdpt(root, virt) in s.tree && Pd(root, virt) in s.tree {
      Step(s, held, Pd(root, virt), PdIdx(virt));
      if Pt(root, virt) in s.tree { Step(s, held, Pt(root, virt), PtIdx(virt)); }
    }
    assert LeafOk(s.tree, s.leaf, s.users, l) && LeafOk(s.tree, s.leaf, s.users, l.up);
    assert LeafOk(s.tree, s.leaf, s.users, Pd(root, virt));
    if l in s.leaf && IsPrivate(l) { OpenWay(s, held, root, virt); }
  }

  /** A private table hangs from a present, writable link; an opened one lets user accesses through. */
  lemma LinkLets(s: Sys, held: Option<nat>, p: Path, i: nat)
    requires Inv(s, held) && p in s.tree && i < ENTRIES && Child(p, i) == Sub(p, i) && Sub(p, i) in s.tree
    requires IsPrivate(Sub(p, i)) && Opened(s.mem, s.tree, Sub(p, i))
    ensures Lets(EntryAt(s.mem, s.tree, p, i), true)
  {
    assert EntryOk(s.mem, s.tree, s.leaf, p, i);
  }

  /** Every link on the way to a private leaf lets user accesses through. */
  lemma OpenWay(s: Sys, held: Option<nat>, root: nat, virt: nat)
    requires Inv(s, held) && HasSpace(s, root) && PathOf(root, virt) in s.leaf && IsPrivate(PathOf(root, virt))
    ensures Pdpt(root, virt) in s.tree && Pd(root, virt) in s.tree && Pt(root, virt) in s.tree
    ensures Lets(EntryAt(s.mem, s.tree, Root(Private(root)), Pml4Idx(virt)), true)
    ensures Lets(EntryAt(s.mem, s.tree, Pdpt(root, virt), PdptIdx(virt)), true)
    ensures Lets(EntryAt(s.mem, s.tree, Pd(root, virt), PdIdx(virt)), true)
  {
    hide Inv, PathOf, Pdpt, Pd, Pt, Child, SpaceOf, IsPrivate;
    var l := PathOf(root, virt);
    PrivateChain(root, virt);
    var a, b, c := Pdpt(root, virt), Pd(root, virt), Pt(root, virt);
    UpIn(s, held, l);
    UpIn(s, held, c);
    UpIn(s, held, b);
    LinkLets(s, held, Root(Private(root)), Pml4Idx(virt));
    LinkLets(s, held, a, PdptIdx(virt));
    LinkLets(s, held, b, PdIdx(virt));
  }

  /** The way to a private leaf is private. */
  lemma PrivateChain(root: nat, virt: nat)
    requires IsPrivate(PathOf(root, virt))
    ensures var a, b, c := Pdpt(root, virt), Pd(root, virt), Pt(root, virt);
      && a == Child(Root(Private(root)), Pml4Idx(virt)) == Sub(Root(Private(root)), Pml4Idx(virt))
      && b == Child(a, PdptIdx(virt)) == Sub(a, PdptIdx(virt)) && c == Child(b, PdIdx(virt)) == Sub(b, PdIdx(virt))
      && PathOf(root, virt) == Sub(c, PtIdx(virt)) && IsPrivate(a) && IsPrivate(b) && IsPrivate(c)
    ensures Pml4Idx(virt) < ENTRIES && PdptIdx(virt) < ENTRIES && PdIdx(virt) < ENTRIES
  {
    PathShape(root, virt);
    var a, b, c := Pdpt(root, virt), Pd(root, virt), Pt(root, virt);
    assert SpaceOf(c) == SpaceOf(PathOf(root, virt)) && SpaceOf(b) == SpaceOf(c);
    assert SpaceOf(Sub(Sub(Root(Shared), 0), 0)) == Shared;
    assert b == Sub(a, PdptIdx(virt)) && SpaceOf(a) == SpaceOf(b);
  }

  lemma UpIn(s: Sys, held: Option<nat>, q: Path)
    requires Inv(s, held) && (q in s.tree || q in s.leaf) && q.Sub? && IsPrivate(q)
    ensures q.up in s.tree && Opened(s.mem, s.tree, q.up)
  {
    assert NodeOk(s.mem, s.tree, s.owner, q) && LeafOk(s.tree, s.leaf, s.users, q);
    assert OpenOk(s.mem, s.tree, s.leaf, q);
    assert SpaceOf(Sub(Root(Shared), 0)) == Shared && SpaceOf(q) == SpaceOf(q.up);
  }
}
