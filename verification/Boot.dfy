/** vmm_init: the tables of the kernel's own space, built in six fresh frames. */
module Boot {
  import opened Wrappers
  import opened Paging
  import opened Pmm
  import opened Tables
  import opened Views
  import opened Walk
  import opened Vmm

  /** The low 48 bits of KERNEL_VMA. */
  const KERNEL_VMA := 0xFFFF_8000_0000

  const WINDOW: Path := Sub(Sub(Root(Shared), 0), 0)
  const FIRST: Path := Sub(WINDOW, 0)
  const HIGH: Path := Sub(Root(Shared), 511)
  const HIGH_DIR: Path := Sub(HIGH, 510)

  /** The frames that vmm_init allocates. */
  datatype Frames = Frames(root: nat, first: nat, window: nat, low: nat, high: nat, highDir: nat)

  function FrameSet(b: Frames): set<nat>
  {
    {b.root, b.first, b.window, b.low, b.high, b.highDir}
  }

  predicate Distinct(b: Frames)
  {
    && b.first != b.root
    && b.window !in {b.root, b.first}
    && b.low !in {b.root, b.first, b.window}
    && b.high !in {b.root, b.first, b.window, b.low}
    && b.highDir !in {b.root, b.first, b.window, b.low, b.high}
  }

  function Low(b: Frames): Path { Sub(Root(Private(b.root)), 0) }

  /** Entries for the supervisor: a link to table t, a 4 KiB leaf and a 2 MiB leaf. */
  function Link(t: nat): Pte { Pte(true, true, false, false, false, false, t) }
  function Small(i: nat): Pte { Pte(true, true, false, false, false, false, i) }
  function Huge(i: nat): Pte { Pte(true, true, false, true, false, false, i * 512) }

  /** Page i of the first 2 MiB is mapped: neither the null page nor the guard page. */
  predicate Mapped(i: nat, guard: nat)
  {
    0 < i < ENTRIES && i * PAGE_SIZE != guard
  }

  function RootEntry(b: Frames, i: nat): Pte
  {
    if i == 0 then Link(b.low) else if i == 511 then Link(b.high) else NO_PTE
  }

  function FirstEntry(guard: nat, i: nat): Pte
  {
    if Mapped(i, guard) then Small(i) else NO_PTE
  }

  function WindowEntry(b: Frames, i: nat): Pte
  {
    if i == 0 then Link(b.first) else Huge(i)
  }

  predicate Holds(mem: map<nat, Content>, t: nat)
  {
    t in mem && mem[t].Table? && |mem[t].entries| == ENTRIES
  }

  /** The six tables, entry by entry. */
  predicate Built(mem: map<nat, Content>, b: Frames, guard: nat)
  {
    && Holds(mem, b.root) && Holds(mem, b.first) && Holds(mem, b.window)
    && Holds(mem, b.low) && Holds(mem, b.high) && Holds(mem, b.highDir)
    && forall i :: 0 <= i < ENTRIES ==>
         && mem[b.root].entries[i] == RootEntry(b, i)
         && mem[b.first].entries[i] == FirstEntry(guard, i)
         && mem[b.window].entries[i] == WindowEntry(b, i)
         && mem[b.low].entries[i] == (if i == 0 then Link(b.window) else NO_PTE)
         && mem[b.high].entries[i] == (if i == 510 then Link(b.highDir) else NO_PTE)
         && mem[b.highDir].entries[i] == (if i == 0 then Huge(0) else NO_PTE)
  }

  ghost function TreeOf(b: Frames): map<Path, nat>
  {
    map[Root(Private(b.root)) := b.root, Low(b) := b.low, WINDOW := b.window, FIRST := b.first,
        HIGH := b.high, HIGH_DIR := b.highDir]
  }

  ghost function OwnerOf(b: Frames, f: nat): Owner
  {
    if f == b.root then TableAt(Root(Private(b.root))) else if f == b.first then TableAt(FIRST)
    else if f == b.window then TableAt(WINDOW) else if f == b.low then TableAt(Low(b))
    else if f == b.high then TableAt(HIGH) else if f == b.highDir then TableAt(HIGH_DIR)
    else Other
  }

  ghost function LeavesAt(guard: nat): map<Path, Pte>
  {
    (map i: nat | i < ENTRIES && Mapped(i, guard) :: Sub(FIRST, i) := Small(i))
    + (map i: nat | 0 < i < ENTRIES :: Sub(WINDOW, i) := Huge(i))
    + map[Sub(HIGH_DIR, 0) := Huge(0)]
  }

  /** What the machine state after vmm_init stands for. */
  ghost function BootSys(mem: map<nat, Content>, free: set<nat>, rc: seq<nat>, b: Frames, guard: nat): Sys
  {
    Sys(mem, free, rc, TreeOf(b),
        map f: nat | f < |rc| && f !in free :: OwnerOf(b, f),
        LeavesAt(guard), map[])
  }

  lemma Places()
    ensures Depth(WINDOW) == 2 && Depth(FIRST) == 3 && Depth(HIGH) == 1 && Depth(HIGH_DIR) == 2
    ensures SpaceOf(WINDOW) == SpaceOf(FIRST) == SpaceOf(HIGH) == SpaceOf(HIGH_DIR) == Shared
    ensures IsPos(WINDOW) && IsPos(FIRST) && IsPos(HIGH) && IsPos(HIGH_DIR)
  {
    assert SpaceOf(WINDOW.up) == Shared && Depth(WINDOW.up) == 1;
  }

  lemma LeafAt(guard: nat, l: Path)
    ensures l in LeavesAt(guard) <==>
      l.Sub? && ((l.up == FIRST && Mapped(l.idx, guard)) || (l.up == WINDOW && 0 < l.idx < ENTRIES)
                 || l == Sub(HIGH_DIR, 0))
    ensures l in LeavesAt(guard) ==>
      LeavesAt(guard)[l] == if l.up == FIRST then Small(l.idx) else Huge(l.idx)
  {
    assert FIRST != WINDOW && FIRST != HIGH_DIR && WINDOW != HIGH_DIR;
  }

  function TableFrame(b: Frames, p: Path): nat
  {
    if p.Root? then b.root else if p == Low(b) then b.low else if p == WINDOW then b.window
    else if p == FIRST then b.first else if p == HIGH then b.high else b.highDir
  }

  lemma TreeAt(b: Frames, p: Path)
    ensures p in TreeOf(b) <==> p in {Root(Private(b.root)), Low(b), WINDOW, FIRST, HIGH, HIGH_DIR}
    ensures p in TreeOf(b) ==> TreeOf(b)[p] == TableFrame(b, p)
  {
    assert FIRST != WINDOW && FIRST != HIGH_DIR && WINDOW != HIGH_DIR && Low(b) != HIGH;
  }

  lemma BootEntry(mem: map<nat, Content>, b: Frames, guard: nat, p: Path, i: nat)
    requires Distinct(b) && Built(mem, b, guard)
    ensures EntryOk(mem, TreeOf(b), LeavesAt(guard), p, i)
  {
    hide TreeOf, LeavesAt;
    Places();
    TreeAt(b, p);
    TreeAt(b, Child(p, i));
    LeafAt(guard, Child(p, i));
    if p in TreeOf(b) && i < ENTRIES {
      if p == Root(Private(b.root)) {
        assert Depth(p) == 0 && EntryAt(mem, TreeOf(b), p, i) == RootEntry(b, i);
      } else if p == Low(b) {
        assert Depth(p) == 1 && EntryAt(mem, TreeOf(b), p, i) == if i == 0 then Link(b.window) else NO_PTE;
      } else if p == WINDOW {
        assert EntryAt(mem, TreeOf(b), p, i) == WindowEntry(b, i);
      } else if p == FIRST {
        assert EntryAt(mem, TreeOf(b), p, i) == FirstEntry(guard, i);
      } else if p == HIGH {
        assert EntryAt(mem, TreeOf(b), p, i) == if i == 510 then Link(b.highDir) else NO_PTE;
      } else {
        assert EntryAt(mem, TreeOf(b), p, i) == if i == 0 then Huge(0) else NO_PTE;
      }
    }
  }

  /** What the allocator holds after six allocations. */
  ghost predicate Counted(free: set<nat>, rc: seq<nat>, b: Frames)
  {
    && (forall f :: f in FrameSet(b) ==> f < |rc| && f !in free && rc[f] == 1)
    && (forall f :: f in free ==> f < |rc| && rc[f] == 0)
  }

  lemma BootNode(mem: map<nat, Content>, free: set<nat>, rc: seq<nat>, b: Frames, guard: nat, p: Path)
    requires Distinct(b) && Built(mem, b, guard) && Counted(free, rc, b)
    ensures var s := BootSys(mem, free, rc, b, guard); NodeOk(s.mem, s.tree, s.owner, p)
  {
    hide TreeOf, LeavesAt;
    Places();
    TreeAt(b, p);
    TreeAt(b, Root(Private(b.root)));
    TreeAt(b, WINDOW);
    TreeAt(b, HIGH);
    assert TableFrame(b, p) in FrameSet(b);
    assert Depth(Low(b)) == 1;
  }

  lemma BootLeaf(mem: map<nat, Content>, b: Frames, guard: nat, l: Path)
    ensures OpenOk(mem, TreeOf(b), LeavesAt(guard), l) && LeafOk(TreeOf(b), LeavesAt(guard), map[], l)
    ensures l in LeavesAt(guard) ==> !IsPrivate(l)
  {
    hide TreeOf, LeavesAt;
    Places();
    TreeAt(b, l);
    LeafAt(guard, l);
    if l.Sub? { TreeAt(b, l.up); }
  }

  lemma BootFrame(mem: map<nat, Content>, free: set<nat>, rc: seq<nat>, b: Frames, guard: nat, f: nat)
    requires Distinct(b) && Counted(free, rc, b)
    ensures FrameOk(BootSys(mem, free, rc, b, guard), f)
  {
    hide TreeOf, LeavesAt;
    if OwnerOf(b, f).TableAt? {
      TreeAt(b, OwnerOf(b, f).path);
      assert f in FrameSet(b);
    }
  }

  /** The state that vmm_init leaves keeps the invariant; its one space is the boot
      space, and no user page is mapped. */
  lemma BootOk(mem: map<nat, Content>, free: set<nat>, rc: seq<nat>, b: Frames, guard: nat)
    requires Distinct(b) && Built(mem, b, guard) && Counted(free, rc, b)
    ensures var s := BootSys(mem, free, rc, b, guard);
      && Inv(s, None) && HasSpace(s, b.root) && Pages(s) == map[]
      && forall r :: Root(Private(r)) in s.tree ==> r == b.root
  {
    hide TreeOf, LeavesAt, OwnerOf, Built;
    var s := BootSys(mem, free, rc, b, guard);
    forall p ensures NodeOk(s.mem, s.tree, s.owner, p) { BootNode(mem, free, rc, b, guard, p); }
    forall p, i: nat ensures EntryOk(s.mem, s.tree, s.leaf, p, i) { BootEntry(mem, b, guard, p, i); }
    forall q ensures OpenOk(s.mem, s.tree, s.leaf, q) && LeafOk(s.tree, s.leaf, s.users, q) {
      BootLeaf(mem, b, guard, q);
    }
    forall f ensures FrameOk(s, f) { BootFrame(mem, free, rc, b, guard, f); }
    forall l ensures l !in Maps(s) { BootLeaf(mem, b, guard, l); }
    TreeAt(b, Root(Private(b.root)));
    TreeAt(b, Low(b));
    forall r ensures Root(Private(r)) in s.tree ==> r == b.root { TreeAt(b, Root(Private(r))); }
  }

  /** The first 1 GiB is mapped to itself but for the null page and the guard page,
      the first 2 MiB once more at KERNEL_VMA, and nothing is open to user accesses. */
  ghost predicate KernelMap(mem: map<nat, Content>, root: nat, guard: nat)
  {
    forall addr: nat :: KernelMapAt(mem, root, guard, addr)
  }

  predicate KernelMapAt(mem: map<nat, Content>, root: nat, guard: nat, addr: nat)
  {
    && (addr < IDENTITY_TOP ==> GetPhysical(mem, root, addr) == InWindow(guard, addr))
    && (KERNEL_VMA <= addr < KERNEL_VMA + 0x20_0000 ==> GetPhysical(mem, root, addr) == Some(addr - KERNEL_VMA))
    && !UserMay(mem, root, addr, false)
  }

  function InWindow(guard: nat, addr: nat): Option<nat>
  {
    if addr < PAGE_SIZE || (addr < 0x20_0000 && addr / PAGE_SIZE * PAGE_SIZE == guard) then None else Some(addr)
  }

  lemma WindowWalk(mem: map<nat, Content>, b: Frames, guard: nat, addr: nat)
    requires Distinct(b) && Built(mem, b, guard) && addr < IDENTITY_TOP
    ensures GetPhysical(mem, b.root, addr) == InWindow(guard, addr)
  {
    assert Pml4Idx(addr) == 0 && PdptIdx(addr) == 0;
    var k := addr / 0x20_0000;
    assert PdIdx(addr) == k;
    if k == 0 {
      assert PtIdx(addr) == addr / PAGE_SIZE;
    } else {
      assert Huge(k).frame / 0x200 == k;
    }
  }

  lemma HighWalk(mem: map<nat, Content>, b: Frames, guard: nat, addr: nat)
    requires Distinct(b) && Built(mem, b, guard) && KERNEL_VMA <= addr < KERNEL_VMA + 0x20_0000
    ensures GetPhysical(mem, b.root, addr) == Some(addr - KERNEL_VMA)
  {
    assert Pml4Idx(addr) == 511 && PdptIdx(addr) == 510 && PdIdx(addr) == 0 && addr % 0x20_0000 == addr - KERNEL_VMA;
  }

  /** No address lets a user access through. */
  lemma NotForUsers(mem: map<nat, Content>, free: set<nat>, rc: seq<nat>, b: Frames, guard: nat, addr: nat)
    requires Distinct(b) && Built(mem, b, guard) && Counted(free, rc, b)
    ensures !UserMay(mem, b.root, addr, false)
  {
    hide Built;
    var s := BootSys(mem, free, rc, b, guard);
    BootOk(mem, free, rc, b, guard);
    LeafDecides(s, None, b.root, addr, false);
    LeafAt(guard, PathOf(b.root, addr));
    Places();
  }

  lemma BootMap(mem: map<nat, Content>, free: set<nat>, rc: seq<nat>, b: Frames, guard: nat)
    requires Distinct(b) && Built(mem, b, guard) && Counted(free, rc, b)
    ensures KernelMap(mem, b.root, guard)
  {
    hide Built, GetPhysical, UserMay;
    forall addr: nat ensures KernelMapAt(mem, b.root, guard, addr) {
      if addr < IDENTITY_TOP { WindowWalk(mem, b, guard, addr); }
      if KERNEL_VMA <= addr < KERNEL_VMA + 0x20_0000 { HighWalk(mem, b, guard, addr); }
      NotForUsers(mem, free, rc, b, guard, addr);
    }
  }

  /** The frames taken so far, in order, from the free set was. */
  ghost predicate Taken(was: set<nat>, taken: seq<nat>, free: set<nat>, rc: seq<nat>)
  {
    && |free| == |was| - |taken|
    && (forall f :: f in free <==> f in was && f !in taken)
    && (forall f :: f in taken ==> f in was && f < |rc| && rc[f] == 1)
    && (forall i, j :: 0 <= i < j < |taken| ==> taken[i] != taken[j])
  }

  /** A frame from an allocator that has one, as KASSERT demands. */
  method Grab(pmm: FrameAllocator, ghost was: set<nat>, ghost taken: seq<nat>) returns (f: nat)
    requires pmm.Valid() && Taken(was, taken, pmm.free, pmm.rc) && |taken| < |was|
    modifies pmm, pmm.bitmap, pmm.refcount
    ensures pmm.Valid() && Taken(was, taken + [f], pmm.free, pmm.rc)
  {
    var r := pmm.AllocFrame();
    f := r.value;
  }

  /** The six allocations, in the order of the source. */
  method GrabSix(pmm: FrameAllocator) returns (b: Frames)
    requires pmm.Valid() && |pmm.free| >= 6
    modifies pmm, pmm.bitmap, pmm.refcount
    ensures pmm.Valid() && Distinct(b) && Counted(pmm.free, pmm.rc, b)
    ensures pmm.free == old(pmm.free) - FrameSet(b) && |pmm.free| == |old(pmm.free)| - 6
    ensures FrameSet(b) <= old(pmm.free)
  {
    hide Taken, FrameAllocator.Valid;
    ghost var was := pmm.free;
    NoneTaken(was, pmm.rc);
    var root := Grab(pmm, was, []);
    ghost var t := [] + [root];
    var first := Grab(pmm, was, t);
    t := t + [first];
    var window := Grab(pmm, was, t);
    t := t + [window];
    var low := Grab(pmm, was, t);
    t := t + [low];
    var high := Grab(pmm, was, t);
    t := t + [high];
    var highDir := Grab(pmm, was, t);
    t := t + [highDir];
    b := Frames(root, first, window, low, high, highDir);
    assert t == [root, first, window, low, high, highDir];
    SixTaken(pmm, was, b);
  }

  lemma NoneTaken(was: set<nat>, rc: seq<nat>)
    ensures Taken(was, [], was, rc)
  {}

  lemma SixTaken(pmm: FrameAllocator, was: set<nat>, b: Frames)
    requires pmm.Valid()
    requires Taken(was, [b.root, b.first, b.window, b.low, b.high, b.highDir], pmm.free, pmm.rc)
    ensures Distinct(b) && Counted(pmm.free, pmm.rc, b)
    ensures pmm.free == was - FrameSet(b) && |pmm.free| == |was| - 6 && FrameSet(b) <= was
  {
    var t := [b.root, b.first, b.window, b.low, b.high, b.highDir];
    assert t[0] == b.root && t[1] == b.first && t[2] == b.window && t[3] == b.low && t[4] == b.high;
    assert t[5] == b.highDir;
    forall f ensures f in t <==> f in FrameSet(b) {}
  }

  method FillFirst(guard: nat) returns (es: seq<Pte>)
    ensures |es| == ENTRIES && forall i :: 0 <= i < ENTRIES ==> es[i] == FirstEntry(guard, i)
  {
    es := seq(ENTRIES, _ => NO_PTE);
    for i := 1 to ENTRIES
      invariant |es| == ENTRIES
      invariant forall j :: 0 <= j < ENTRIES ==> es[j] == if j < i then FirstEntry(guard, j) else NO_PTE
    {
      if i * PAGE_SIZE != guard {
        es := es[i := Small(i)];
      }
    }
  }

  method FillWindow(b: Frames) returns (es: seq<Pte>)
    ensures |es| == ENTRIES && forall i :: 0 <= i < ENTRIES ==> es[i] == WindowEntry(b, i)
  {
    es := seq(ENTRIES, _ => NO_PTE)[0 := Link(b.first)];
    for i := 1 to ENTRIES
      invariant |es| == ENTRIES
      invariant forall j :: 0 <= j < i ==> es[j] == WindowEntry(b, j)
    {
      es := es[i := Huge(i)];
    }
  }

  /** The tables in their cleared frames, the links from the leaves up. */
  method BuildTables(mem: map<nat, Content>, b: Frames, guard: nat) returns (built: map<nat, Content>)
    requires Distinct(b)
    ensures Built(built, b, guard)
    ensures forall f :: f in mem && f !in FrameSet(b) ==> f in built && built[f] == mem[f]
  {
    var first := FillFirst(guard);
    var window := FillWindow(b);
    var none := seq(ENTRIES, _ => NO_PTE);
    built := mem[b.first := Table(first)][b.window := Table(window)];
    built := built[b.low := Table(none[0 := Link(b.window)])];
    built := built[b.highDir := Table(none[0 := Huge(0)])][b.high := Table(none[510 := Link(b.highDir)])];
    built := built[b.root := Table(none[0 := Link(b.low)][511 := Link(b.high)])];
  }

  /** Builds the boot space. Its only mappings are the kernel's, none open to user
      accesses; every frame but the six tables is as it was. */
  method VmmInit(pmm: FrameAllocator, mem: map<nat, Content>, guard: nat) returns (v: PageTables)
    requires pmm.Valid() && |pmm.free| >= 6
    modifies pmm, pmm.bitmap, pmm.refcount
    ensures fresh(v) && v.pmm == pmm && v.Valid(None) && v.SpacesOk() && v.spaces == {v.cur}
    ensures Pages(v.sys) == map[]
    ensures KernelMap(v.mem, v.cur, guard)
    ensures pmm.free <= old(pmm.free) && |pmm.free| == |old(pmm.free)| - 6
    ensures forall f :: f in mem && f !in old(pmm.free) - pmm.free ==> f in v.mem && v.mem[f] == mem[f]
  {
    hide Sound, Inv, Built, Counted, KernelMap, TreeOf, LeavesAt, OwnerOf;
    var b := GrabSix(pmm);
    var built := BuildTables(mem, b, guard);
    ghost var s := BootSys(built, pmm.free, pmm.rc, b, guard);
    BootOk(built, pmm.free, pmm.rc, b, guard);
    BootMap(built, pmm.free, pmm.rc, b, guard);
    v := new PageTables(pmm, built, b.root, s);
  }
}
