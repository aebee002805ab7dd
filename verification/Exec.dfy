/** Replacing a program: a new space is made and loaded, its stack page filled,
    and only then the old space goes. A failure on the way leaves no trace. */
module Exec {
  import opened Wrappers
  import opened Paging
  import opened Pmm
  import opened Tables
  import opened Views
  import opened Walk
  import opened Share
  import opened Vmm
  import opened UserMemory
  import EagerFork
  import opened Elf
  import ExecStack
  import Words

  const STACK_BASE: nat := ExecStack.STACK_BASE

  /** A loaded image: the space, the entry address and the start of the heap. */
  datatype Loaded = Loaded(root: nat, image: Image)

  /** The stack page is apart from every segment. */
  ghost predicate StackClear(f: File)
    requires HeaderOk(f)
  {
    forall i :: 0 <= i < Count(f) && Segment(f, i).kind == PT_LOAD ==>
      Last(Segment(f, i)) <= STACK_BASE || STACK_BASE + PAGE_SIZE <= First(Segment(f, i))
  }

  /** Nothing has changed that anyone could see, and no frame is lost. */
  ghost predicate NoTrace(s: Sys, s': Sys)
  {
    s'.tree == s.tree && Maps(s') == Maps(s) && s'.free == s.free && s'.rc == s.rc && Kept(s, s')
  }

  /** The pages once f is loaded at root and stack lies on its stack page. */
  ghost function ImagePages(m: map<Path, PageView>, root: nat, f: File, stack: Page): map<Path, PageView>
    requires Accepted(f)
  {
    AfterSegments(m, root, f, Count(f))[PathOf(root, STACK_BASE) := PageView(stack, true, true)]
  }

  /** The stack page can be written: no other leaf maps its frame. */
  ghost predicate OwnStack(s: Sys, root: nat)
  {
    var l := PathOf(root, STACK_BASE);
    l in s.leaf && IsPrivate(l) && s.leaf[l].write
  }

  /** With more free frames than this an accepted image is loaded: two for the
      root tables, and at most four for each page. */
  function FramesFor(f: File): nat
  {
    2 + 4 * (PagesIn(f) + 1) + 1
  }

  lemma AddedFrames(s: Sys, s': Sys, r: nat)
    requires SpaceAdded(s, s', r)
    ensures |s.free| <= |s'.free| + 2
  {
    var p := Root(Private(r));
    assert s'.tree.Keys <= s.tree.Keys + {p} + {Sub(p, 0)};
    SubsetSize(s'.tree.Keys, s.tree.Keys + {p} + {Sub(p, 0)});
  }

  lemma OnlyAdded(s: Sys, s': Sys, r: nat)
    requires SpaceAdded(s, s', r) && Kept(s, s') && Maps(s') == Maps(s)
    ensures OnlySpace(s, s', r) && forall l :: l in Pages(s') ==> SpaceOf(l) != Private(r)
  {
    hide Kept;
    var p := Root(Private(r));
    assert SpaceOf(p) == Private(r) && SpaceOf(Sub(p, 0)) == Private(r);
  }

  /** The stack page of a freshly loaded space is not mapped. */
  lemma StackFree(m: map<Path, PageView>, root: nat, f: File)
    requires HeaderOk(f) && SegmentsOk(f, Count(f)) && Separate(f) && StackClear(f)
    requires forall l :: l in m ==> SpaceOf(l) != Private(root)
    ensures PathOf(root, STACK_BASE) !in AfterSegments(m, root, f, Count(f))
  {
    hide HeaderOk, PathOf, AfterSegments, First, Last;
    UserIsPrivate(root, STACK_BASE);
    NotLoaded(m, root, f, Count(f), STACK_BASE);
  }

  lemma LeafFree(s: Sys, l: Path)
    requires l !in Pages(s) && IsPrivate(l)
    ensures l !in s.leaf
  {}

  /** Loads an image into the fresh space at root and maps a zero stack page. */
  method LoadInto(v: PageTables, root: nat, f: File) returns (image: Option<Image>)
    requires v.Valid(None) && v.SpacesOk() && root in v.spaces && (HeaderOk(f) ==> Separate(f) && StackClear(f))
    requires forall l :: l in Pages(v.sys) ==> SpaceOf(l) != Private(root)
    modifies v`mem, v`sys, v.pmm, v.pmm.bitmap, v.pmm.refcount
    ensures v.Valid(None) && v.SpacesOk() && OnlySpace(old(v.sys), v.sys, root)
    ensures image.Some? ==>
      && Accepted(f) && image.value.entry == Words.Eight(f, 24) && IsBreak(f, image.value.brkBase)
      && Pages(v.sys) == ImagePages(Pages(old(v.sys)), root, f, ZeroPage())
      && OwnStack(v.sys, root)
    ensures |old(v.sys.free)| <= |v.sys.free| + 4 * (PagesIn(f) + 1)
    ensures image.None? ==> !Accepted(f) || |v.sys.free| <= 1
  {
    hide PagesIn, Inv, Kept, Sound, SpacesIn, PathOf, Maps, Pages, Separate, StackClear, AfterSegments;
    hide TreeGrown, OnlySpace, Accepted;
    ghost var s1 := v.sys;
    image := LoadUserImage(v, root, f);
    if image.None? {
      return;
    }
    ghost var s2 := v.sys;
    AcceptedParts(f);
    StackFree(Pages(s1), root, f);
    UserIsPrivate(root, STACK_BASE);
    LeafFree(s2, PathOf(root, STACK_BASE));
    SpaceThere(s2, v.spaces, v.cur, root);
    var ok := v.MapFilledPage(root, STACK_BASE, ZeroPage(), true, true);
    OnlyMapped(s2, v.sys, PathOf(root, STACK_BASE), root);
    OnlyTrans(s1, s2, v.sys, root);
    SpacesMapped(s2, v.sys, v.spaces, v.cur, PathOf(root, STACK_BASE));
    if !ok {
      return None;
    }
    MappedPages(s2, v.sys, PathOf(root, STACK_BASE), PageView(ZeroPage(), true, true));
  }

  /** Loads an image into a new space; what fails is undone. */
  method LoadImage(v: PageTables, f: File) returns (r: Option<Loaded>)
    requires v.Valid(None) && v.SpacesOk() && (HeaderOk(f) ==> Separate(f) && StackClear(f))
    modifies v`mem, v`sys, v`spaces, v.pmm, v.pmm.bitmap, v.pmm.refcount
    ensures v.Valid(None) && v.SpacesOk()
    ensures r.None? ==> v.spaces == old(v.spaces) && NoTrace(old(v.sys), v.sys)
    ensures r.None? ==> !Accepted(f) || |old(v.sys.free)| <= FramesFor(f)
    ensures r.Some? ==>
      && ghost var root := r.value.root;
      && root !in old(v.spaces) && v.spaces == old(v.spaces) + {root} && OnlySpace(old(v.sys), v.sys, root)
      && Accepted(f) && r.value.image.entry == Words.Eight(f, 24) && IsBreak(f, r.value.image.brkBase)
      && Pages(v.sys) == ImagePages(Pages(old(v.sys)), root, f, ZeroPage())
      && OwnStack(v.sys, root)
  {
    hide PagesIn, Inv, Kept, Sound, SpacesIn, PathOf, Maps, Pages, Separate, StackClear, ImagePages, SpaceAdded;
    hide SpaceRemoved, OnlySpace, Accepted;
    ghost var s0 := v.sys;
    SameTrace(s0);
    CurrentIn(s0, v.spaces, v.cur);
    var made := v.CreateAddressSpace();
    if made.None? {
      return None;
    }
    var root := made.value;
    ghost var s1 := v.sys;
    SamePages(s0, s1);
    OnlyAdded(s0, s1, root);
    AddedFrames(s0, s1, root);
    var image := LoadInto(v, root, f);
    ghost var s2 := v.sys;
    if image.None? {
      v.DestroyUserAddressSpace(root);
      SpaceUndone(s0, s1, s2, v.sys, root);
      return None;
    }
    OnlyTrans(s0, s1, s2, root);
    return Some(Loaded(root, image.value));
  }

  lemma CurrentIn(s: Sys, spaces: set<nat>, cur: nat)
    requires SpacesIn(s, spaces, cur)
    ensures cur in spaces
  {}

  lemma SameTrace(s: Sys)
    ensures NoTrace(s, s)
  {
    KeptSame(s);
  }

  lemma SpaceThere(s: Sys, spaces: set<nat>, cur: nat, r: nat)
    requires SpacesIn(s, spaces, cur) && r in spaces
    ensures HasSpace(s, r)
  {}

  lemma AcceptedParts(f: File)
    requires Accepted(f)
    ensures HeaderOk(f) && SegmentsOk(f, Count(f))
  {}

  lemma OnlyWrote(s: Sys, s': Sys, l: Path, w: PageView, r: nat)
    requires Kept(s, s') && s'.tree == s.tree && s'.leaf == s.leaf && SpaceOf(l) == Private(r)
    requires Pages(s') == Pages(s)[l := w]
    ensures OnlySpace(s, s', r)
  {
    hide Kept;
    forall m | SpaceOf(m) != Private(r) && m in Maps(s) ensures m in Maps(s') && Maps(s')[m] == Maps(s)[m] {
      assert m in Pages(s) && Pages(s')[m] == Pages(s)[m];
    }
    forall m | SpaceOf(m) != Private(r) && m in Maps(s') ensures m in Maps(s) {}
  }

  lemma WholePage(page: Page, stack: Page)
    ensures Splice(page, 0, stack) == stack
  {}

  /** Copies the stack contents into the stack page of the new space. */
  method FillStack(v: PageTables, root: nat, f: File, stack: Page, ghost m: map<Path, PageView>)
    requires v.Valid(None) && v.SpacesOk() && root in v.spaces && Accepted(f) && OwnStack(v.sys, root)
    requires Pages(v.sys) == ImagePages(m, root, f, ZeroPage())
    modifies v`mem, v`sys
    ensures v.Valid(None) && v.SpacesOk() && OnlySpace(old(v.sys), v.sys, root)
    ensures Pages(v.sys) == ImagePages(m, root, f, stack)
  {
    hide Inv, Kept, Sound, PathOf, Maps, Pages, OnlySpace, Accepted, AfterSegments, Splice;
    ghost var l, s1 := PathOf(root, STACK_BASE), v.sys;
    SpaceThere(v.sys, v.spaces, v.cur, root);
    UserLeaf(v.sys, root, STACK_BASE);
    UserIsPrivate(root, STACK_BASE);
    var phys := GetPhysical(v.mem, root, STACK_BASE);
    PhysSplit(phys.value, v.sys.leaf[l].frame, 0);
    WriteFrame(v, phys.value, stack, l);
    WholePage(Pages(s1)[l].bytes, stack);
    OnlyWrote(s1, v.sys, l, PageView(stack, true, true), root);
  }

  /** Replaces the program of the current process, whose space is v.cur. */
  method ReplaceUserElf(v: PageTables, f: File, stack: Page, rsp: nat) returns (r: Option<Image>)
    requires v.Valid(None) && v.SpacesOk() && (HeaderOk(f) ==> Separate(f) && StackClear(f))
    modifies v`mem, v`sys, v`spaces, v`cur, v.pmm, v.pmm.bitmap, v.pmm.refcount
    ensures v.Valid(None) && v.SpacesOk()
    ensures r.None? ==> v.cur == old(v.cur) && v.spaces == old(v.spaces) && NoTrace(old(v.sys), v.sys)
    ensures r.None? ==>
      || !Accepted(f) || |old(v.sys.free)| <= FramesFor(f) || !(STACK_BASE <= rsp <= STACK_BASE + PAGE_SIZE)
    ensures r.Some? ==>
      && Accepted(f) && r.value.entry == Words.Eight(f, 24) && IsBreak(f, r.value.brkBase)
      && STACK_BASE <= rsp <= STACK_BASE + PAGE_SIZE
      && v.cur !in old(v.spaces) && v.spaces == old(v.spaces) - {old(v.cur)} + {v.cur}
      && EagerFork.DroppedPages(ImagePages(Pages(old(v.sys)), v.cur, f, stack), Pages(v.sys), old(v.cur))
  {
    hide Inv, Kept, Sound, SpacesIn, PathOf, Maps, Pages, Separate, StackClear, ImagePages, SpaceRemoved;
    hide OnlySpace, Accepted, OwnStack;
    ghost var s0 := v.sys;
    CurrentIn(s0, v.spaces, v.cur);
    var loaded := LoadImage(v, f);
    if loaded.None? {
      return None;
    }
    var root := loaded.value.root;
    ghost var s1 := v.sys;
    if rsp < STACK_BASE || rsp > STACK_BASE + PAGE_SIZE {
      v.DestroyUserAddressSpace(root);
      LoadUndone(s0, s1, v.sys, old(v.spaces), v.cur, root);
      return None;
    }
    FillStack(v, root, f, stack, Pages(s0));
    ghost var s2 := v.sys;
    var gone := v.cur;
    v.cur := root;
    SpacesSwitch(v.sys, v.spaces, gone, root);
    v.DestroyUserAddressSpace(gone);
    EagerFork.RemovedPages(s2, v.sys, gone);
    return Some(loaded.value.image);
  }

  lemma SpacesSwitch(s: Sys, spaces: set<nat>, cur: nat, r: nat)
    requires SpacesIn(s, spaces, cur) && r in spaces
    ensures SpacesIn(s, spaces, r)
  {}

  /** A space that was not there and is gone again leaves no trace. */
  lemma LoadUndone(s0: Sys, s1: Sys, s: Sys, spaces: set<nat>, cur: nat, r: nat)
    requires Inv(s0, None) && Inv(s, None) && SpacesIn(s0, spaces, cur) && r !in spaces
    requires OnlySpace(s0, s1, r) && SpaceRemoved(s1, s, r)
    ensures NoTrace(s0, s)
  {
    hide Kept, Inv;
    forall q | q in s0.tree || q in s0.leaf ensures SpaceOf(q) != Private(r) { NoSuchSpace(s0, spaces, cur, r, q); }
    assert s.tree == s0.tree by { assert forall q :: q in s.tree <==> q in s0.tree; }
    assert Maps(s) == Maps(s0) by { assert forall l :: l in Maps(s) <==> l in Maps(s0); }
    KeptTrans(s0, s1, s);
    AllocatorDetermined(s0, s);
  }

  lemma NoSuchSpace(s: Sys, spaces: set<nat>, cur: nat, r: nat, q: Path)
    requires Inv(s, None) && SpacesIn(s, spaces, cur) && r !in spaces && (q in s.tree || q in s.leaf)
    ensures SpaceOf(q) != Private(r)
  {
    if SpaceOf(q) == Private(r) {
      BelowRoot(q);
      assert NodeOk(s.mem, s.tree, s.owner, q) && LeafOk(s.tree, s.leaf, s.users, q);
      if q != Root(Private(r)) { AncestorsIn(s, q, Root(Private(r))); }
    }
  }

  predicate ArgsFit(argv: seq<ExecStack.Text>, envp: seq<ExecStack.Text>)
  {
    |argv| <= ExecStack.MAX_ARGS && |envp| <= ExecStack.MAX_ARGS && ExecStack.Fits(argv, envp)
  }

  /** A started program: where it begins, its stack pointer and the start of its heap. */
  datatype Outcome = Started(entry: nat, rsp: nat, brk: nat) | Failed

  /** execve: on success the process sees the image and a stack page from which
      the startup code reads argv and envp, no other process sees a change, and
      the old space is gone; on failure nothing has changed. */
  method Execve(v: PageTables, f: File, argv: seq<ExecStack.Text>, envp: seq<ExecStack.Text>) returns (r: Outcome)
    requires v.Valid(None) && v.SpacesOk() && (HeaderOk(f) ==> Separate(f) && StackClear(f))
    requires ExecStack.TextsOk(argv) && ExecStack.TextsOk(envp)
    modifies v`mem, v`sys, v`spaces, v`cur, v.pmm, v.pmm.bitmap, v.pmm.refcount
    ensures v.Valid(None) && v.SpacesOk()
    ensures r == Failed ==> v.cur == old(v.cur) && v.spaces == old(v.spaces) && NoTrace(old(v.sys), v.sys)
    ensures r == Failed ==> !Accepted(f) || |old(v.sys.free)| <= FramesFor(f) || !ArgsFit(argv, envp)
    ensures r.Started? ==>
      && Accepted(f) && r.entry == Words.Eight(f, 24) && IsBreak(f, r.brk)
      && v.cur !in old(v.spaces) && v.spaces == old(v.spaces) - {old(v.cur)} + {v.cur}
      && exists stack: Page ::
           && EagerFork.DroppedPages(ImagePages(Pages(old(v.sys)), v.cur, f, stack), Pages(v.sys), old(v.cur))
           && ExecStack.Crt0(stack, r.rsp) == Some(ExecStack.Args(argv, envp)) && r.rsp % 16 == 0
  {
    hide Inv, Kept, Sound, SpacesIn, PathOf, Maps, Pages, Separate, StackClear, ImagePages, Accepted;
    SameTrace(v.sys);
    var page := new byte[PAGE_SIZE];
    var built := ExecStack.BuildExecStack(page, argv, envp);
    if !built.Built? {
      return Failed;
    }
    var stack: Page := page[..];
    var image := ReplaceUserElf(v, f, stack, built.rsp);
    if image.None? {
      return Failed;
    }
    return Started(image.value.entry, built.rsp, image.value.brkBase);
  }

  lemma {:induction false} PagesElsewhere(m: map<Path, PageView>, root: nat, f: File, ph: Phdr, n: nat, l: Path)
    requires SegmentOk(ph, |f|) && n <= PageCount(ph) && First(ph) >= IDENTITY_TOP && SpaceOf(l) != Private(root)
    ensures var m' := AfterPages(m, root, f, ph, n); (l in m' <==> l in m) && (l in m ==> m'[l] == m[l])
  {
    hide PathOf, View;
    if n > 0 {
      PageSpan(ph, n - 1);
      UserIsPrivate(root, First(ph) + (n - 1) * PAGE_SIZE);
      PagesElsewhere(m, root, f, ph, n - 1, l);
    }
  }

  lemma {:induction false} SegmentsElsewhere(m: map<Path, PageView>, root: nat, f: File, n: nat, l: Path)
    requires HeaderOk(f) && n <= Count(f) && SegmentsOk(f, n) && Separate(f) && SpaceOf(l) != Private(root)
    ensures var m' := AfterSegments(m, root, f, n); (l in m' <==> l in m) && (l in m ==> m'[l] == m[l])
  {
    hide HeaderOk, AfterPages, First, PageCount;
    if n > 0 {
      SegmentsElsewhere(m, root, f, n - 1, l);
      var ph := Segment(f, n - 1);
      if ph.kind == PT_LOAD {
        PagesElsewhere(AfterSegments(m, root, f, n - 1), root, f, ph, PageCount(ph), l);
      }
    }
  }

  /** After exec the process sees the bytes and permissions of its image, and its stack page. */
  lemma ProcessSees(m: map<Path, PageView>, m': map<Path, PageView>, root: nat, gone: nat, f: File, stack: Page,
                    k: nat, addr: nat)
    requires Accepted(f) && Separate(f) && StackClear(f) && root != gone
    requires EagerFork.DroppedPages(ImagePages(m, root, f, stack), m', gone)
    requires k < Count(f) && IsLoad(f, k) && InPages(f, k, addr)
    ensures LoadOk(f, k) && var l := PathOf(root, addr);
      && l in m' && m'[l].bytes[addr % PAGE_SIZE] == FileByte(f, k, addr)
      && (m'[l].writable <==> f[HeaderAt(f, k) + 4] % 8 in {2, 3, 6, 7})
      && (m'[l].nx <==> f[HeaderAt(f, k) + 4] % 8 in {0, 2, 4, 6})
    ensures var l := PathOf(root, STACK_BASE); l in m' && m'[l] == PageView(stack, true, true)
  {
    hide PathOf, AfterSegments, First, Last, FileByte, InPages, IsLoad, LoadOk, HeaderOk, SegmentsOk, Separate, Segment;
    hide HeaderBytes, HeaderAt;
    UserIsPrivate(root, STACK_BASE);
    HeaderIs(f);
    LoadIs(f, k);
    LoadedByte(m, root, f, k, addr);
    PagesAre(f, k, addr);
    SegmentBounds(f, k);
    UserIsPrivate(root, addr);
    if PathOf(root, addr) == PathOf(root, STACK_BASE) {
      PlacesDiffer(root, STACK_BASE, addr);
      InPage(STACK_BASE, addr);
    }
  }

  lemma SegmentBounds(f: File, k: nat)
    requires Accepted(f) && Separate(f) && k < Count(f) && Segment(f, k).kind == PT_LOAD
    ensures IDENTITY_TOP <= First(Segment(f, k)) && Last(Segment(f, k)) <= USER_SPACE_TOP
  {
    hide HeaderOk;
    SpanEnds(Segment(f, k));
  }

  /** After exec every other process sees what it saw. */
  lemma OthersSee(m: map<Path, PageView>, m': map<Path, PageView>, root: nat, gone: nat, f: File, stack: Page, l: Path)
    requires Accepted(f) && Separate(f) && EagerFork.DroppedPages(ImagePages(m, root, f, stack), m', gone)
    requires SpaceOf(l) != Private(root) && SpaceOf(l) != Private(gone)
    ensures (l in m' <==> l in m) && (l in m ==> m'[l] == m[l])
  {
    hide PathOf, AfterSegments, HeaderOk, Separate;
    UserIsPrivate(root, STACK_BASE);
    SegmentsElsewhere(m, root, f, Count(f), l);
  }
}
