/** The specification of user memory: fork copies every page at once, and no
    two processes ever share one. Any run of the real operations, with page
    tables, reference counts and copy-on-write, is a run of this specification. */
module EagerFork {
  import opened Wrappers
  import opened Paging
  import opened Pmm
  import opened Tables
  import opened Views
  import opened Walk
  import opened Share
  import opened Vmm
  import opened UserMemory

  /** What there is to see: the spaces, their pages, which space is current, and
      which one is the kernel's own, never destroyed and never given user pages. */
  datatype Spec = Spec(spaces: set<nat>, pages: map<Path, PageView>, current: nat, boot: nat)

  datatype Op =
    | Create
    | Fork(src: nat)
    | Destroy(space: nat)
    | Map(space: nat, virt: nat, write: bool, nx: bool)
    | Unmap(space: nat, virt: nat)
    | Store(addr: nat, value: byte)
    | CopyOut(addr: nat, bytes: seq<byte>)
    | Switch(space: nat)

  /** How an operation came out; Made names a new space, Wrote counts bytes. */
  datatype Outcome = Done | Made(space: nat) | Wrote(n: nat) | OutOfMemory | Refused

  /** The pages of d are copies of the pages of src; all others stand. */
  ghost predicate CopiedPages(m: map<Path, PageView>, m': map<Path, PageView>, src: nat, d: nat)
  {
    && (forall l :: SpaceOf(l) != Private(d) ==> (l in m' <==> l in m) && (l in m ==> m'[l] == m[l]))
    && (forall l :: SpaceOf(l) == Private(d) ==>
          (l in m' <==> Move(l, src) in m) && (l in m' ==> m'[l] == m[Move(l, src)]))
  }

  /** The pages of r are gone; all others stand. */
  ghost predicate DroppedPages(m: map<Path, PageView>, m': map<Path, PageView>, r: nat)
  {
    forall l :: (l in m' <==> l in m && SpaceOf(l) != Private(r)) && (l in m' ==> m'[l] == m[l])
  }

  ghost predicate CanMap(s: Spec, r: nat, virt: nat)
  {
    r in s.spaces && r != s.boot && IDENTITY_TOP <= virt < USER_SPACE_TOP && PathOf(r, virt) !in s.pages
  }

  /** One step of the specification. */
  ghost predicate SpecStep(s: Spec, op: Op, out: Outcome, s': Spec)
  {
    match op
    case Create =>
      if out.Made? then out.space !in s.spaces && s' == s.(spaces := s.spaces + {out.space})
      else out == OutOfMemory && s' == s
    case Fork(src) =>
      if out.Made? then
        && src in s.spaces && out.space !in s.spaces
        && s'.spaces == s.spaces + {out.space} && s'.current == s.current && s'.boot == s.boot
        && CopiedPages(s.pages, s'.pages, src, out.space)
      else (out == OutOfMemory || (out == Refused && (src !in s.spaces || |s.spaces| >= REFCOUNT_MAX))) && s' == s
    case Destroy(r) =>
      if out == Done then
        && r in s.spaces && r != s.current && r != s.boot
        && s'.spaces == s.spaces - {r} && s'.current == s.current && s'.boot == s.boot
        && DroppedPages(s.pages, s'.pages, r)
      else out == Refused && (r !in s.spaces || r == s.current || r == s.boot) && s' == s
    case Map(r, virt, write, nx) =>
      var l := PathOf(r, virt);
      if out == Done then
        CanMap(s, r, virt) && s' == s.(pages := s.pages[l := PageView(ZeroPage(), write, nx)])
      else (out == OutOfMemory || (out == Refused && !CanMap(s, r, virt))) && s' == s
    case Unmap(r, virt) =>
      if out == Done then r in s.spaces && s' == s.(pages := s.pages - {PathOf(r, virt)})
      else out == Refused && r !in s.spaces && s' == s
    case Store(addr, value) =>
      if out == Done then
        && AccessTo(s.pages, s.current, addr, true) == Granted
        && s' == s.(pages := WriteByte(s.pages, s.current, addr, value))
      else
        (out == OutOfMemory || (out == Refused && AccessTo(s.pages, s.current, addr, true) == Denied)) && s' == s
    case CopyOut(addr, bytes) =>
      && out.Wrote? && out.n <= |bytes| && AllGranted(s.pages, s.current, addr, out.n, true)
      && s' == s.(pages := WriteBytes(s.pages, s.current, addr, bytes[..out.n]))
    case Switch(r) =>
      if out == Done then r in s.spaces && s' == s.(current := r) else out == Refused && r !in s.spaces && s' == s
  }

  /** What the machine shows. */
  ghost function Shown(v: PageTables, boot: nat): Spec
    reads v
  {
    Spec(v.spaces, Pages(v.sys), v.cur, boot)
  }

  /** An operation falls short only where frames do: the machine is asked for more than it has. */
  ghost predicate Honest(s: Sys, s': Sys, cur: nat, op: Op, out: Outcome)
  {
    match op
    case Create => out == OutOfMemory <==> |s.free| < 2
    case Fork(src) => out == OutOfMemory ==> |s.free| < |Needed(s, src)|
    case Map(_, _, _, _) => out == OutOfMemory ==> |s.free| <= 5 && |s'.free| <= 1
    case Store(addr, _) => out == OutOfMemory ==> NoFrameFor(s', cur, addr)
    case CopyOut(addr, bytes) =>
      out.Wrote? && out.n < |bytes| ==>
        || AccessTo(Pages(s), cur, addr + out.n, true) == Denied || addr + |bytes| > USER_SPACE_TOP
        || NoFrameFor(s', cur, addr + out.n)
    case _ => true
  }

  lemma ForkedPages(s: Sys, s': Sys, src: nat, d: nat)
    requires Forked(Maps(s), Maps(s'), src, d)
    ensures CopiedPages(Pages(s), Pages(s'), src, d)
  {}

  lemma RemovedPages(s: Sys, s': Sys, r: nat)
    requires SpaceRemoved(s, s', r)
    ensures DroppedPages(Pages(s), Pages(s'), r)
  {}

  /** Between two states: shared tables and other frames as before, and the
      tables of the boot space, where no user page is ever mapped. */
  ghost predicate Steady(s: Sys, s': Sys, boot: nat)
  {
    && Kept(s, s')
    && (forall q :: SpaceOf(q) == Private(boot) ==>
          (q in s.tree <==> q in s'.tree) && (q in s.tree ==> s'.tree[q] == s.tree[q]))
    && (forall l :: SpaceOf(l) == Private(boot) && l in Pages(s') ==> l in Pages(s))
  }

  lemma SteadyTrans(a: Sys, b: Sys, c: Sys, boot: nat)
    requires Steady(a, b, boot) && Steady(b, c, boot)
    ensures Steady(a, c, boot)
  {
    KeptTrans(a, b, c);
  }

  lemma SteadySame(s: Sys, boot: nat)
    ensures Steady(s, s, boot)
  {
    GrownSame(s, Root(Shared));
  }

  /** A write access as the processor performs it: a faulting one is retried
      after the page-fault handler, and is fatal where that declines. */
  method WriteAccess(v: PageTables, addr: nat) returns (phys: Option<nat>, starved: bool)
    requires v.Valid(None) && v.SpacesOk()
    modifies v`mem, v`sys, v.pmm, v.pmm.bitmap, v.pmm.refcount
    ensures Undisturbed(v, old(v.sys)) && Pages(v.sys) == Pages(old(v.sys))
    ensures phys.Some? ==> ghost var l := PathOf(v.cur, addr);
      && AccessTo(Pages(v.sys), v.cur, addr, true) == Granted
      && l in v.sys.leaf && IsPrivate(l) && v.sys.leaf[l].write
      && phys.value == v.sys.leaf[l].frame * PAGE_SIZE + addr % PAGE_SIZE
    ensures phys.None? ==>
      if starved then NoFrameFor(v.sys, v.cur, addr) else AccessTo(Pages(v.sys), v.cur, addr, true) == Denied
  {
    hide Inv, Kept, Sound, PathOf, Maps, Pages;
    SteadySame(v.sys, 0);
    LeafIsPage(v.sys, PathOf(v.cur, addr));
    if addr == 0 || addr >= USER_SPACE_TOP {
      return None, false;
    }
    UserLeaf(v.sys, v.cur, addr);
    LeafDecides(v.sys, None, v.cur, addr, true);
    var e := FinalEntry(v.mem, v.cur, addr);
    if !UserMay(v.mem, v.cur, addr, true) {
      var handled := v.HandlePageFault(addr, e.present, true);
      if !handled {
        return None, e.present && e.user && e.cow;
      }
      UserLeaf(v.sys, v.cur, addr);
    }
    phys, starved := GetPhysical(v.mem, v.cur, addr), false;
  }

  method UserStore(v: PageTables, addr: nat, value: byte, ghost boot: nat) returns (out: Outcome)
    requires v.Valid(None) && v.SpacesOk()
    modifies v`mem, v`sys, v.pmm, v.pmm.bitmap, v.pmm.refcount
    ensures Undisturbed(v, old(v.sys))
    ensures SpecStep(old(Shown(v, boot)), Store(addr, value), out, Shown(v, boot))
    ensures out == OutOfMemory ==> NoFrameFor(v.sys, v.cur, addr)
  {
    hide Inv, Kept, Sound, PathOf, Pages, WriteBytes;
    var phys, starved := WriteAccess(v, addr);
    if phys.None? {
      return if starved then OutOfMemory else Refused;
    }
    ghost var s1, now := v.sys, Pages(v.sys);
    WriteChunk(v, addr, phys.value, [value], now);
    KeptTrans(old(v.sys), s1, v.sys);
    OneByte(now, v.cur, addr, value);
    return Done;
  }

  lemma OneByte(pages: map<Path, PageView>, root: nat, addr: nat, b: byte)
    ensures WriteBytes(pages, root, addr, [b]) == WriteByte(pages, root, addr, b)
  {
    assert [b][1..] == [];
  }

  lemma CalmSteady(s: Sys, s': Sys, boot: nat)
    requires Kept(s, s') && s'.tree == s.tree && Pages(s').Keys <= Pages(s).Keys
    ensures Steady(s, s', boot)
  {}

  lemma AddedSteady(s: Sys, s': Sys, r: nat, boot: nat)
    requires Kept(s, s') && SpaceAdded(s, s', r) && Maps(s') == Maps(s) && boot != r
    ensures Steady(s, s', boot)
  {
    assert SpaceOf(Root(Private(r))) == Private(r) && SpaceOf(Sub(Root(Private(r)), 0)) == Private(r);
  }

  lemma MappedSteady(s: Sys, s': Sys, l: Path, boot: nat)
    requires Kept(s, s') && TreeGrown(s, s', l) && SpaceOf(l) != Private(boot)
    requires forall m :: m in Maps(s') && m != l ==> m in Maps(s)
    ensures Steady(s, s', boot)
  {
    forall q | q in s'.tree && q !in s.tree ensures SpaceOf(q) != Private(boot) { BelowSpace(l, q); }
  }

  method DoCreate(v: PageTables, boot: nat) returns (out: Outcome)
    requires v.Valid(None) && v.SpacesOk() && boot in v.spaces
    modifies v`mem, v`sys, v`spaces, v.pmm, v.pmm.bitmap, v.pmm.refcount
    ensures v.Valid(None) && v.SpacesOk() && boot in v.spaces && Steady(old(v.sys), v.sys, boot)
    ensures SpecStep(old(Shown(v, boot)), Create, out, Shown(v, boot))
    ensures Honest(old(v.sys), v.sys, old(v.cur), Create, out)
  {
    hide Inv, Kept, Sound, Steady, Maps, SpacesIn, SpaceAdded;
    SteadySame(v.sys, boot);
    var r := v.CreateAddressSpace();
    if r.None? {
      return OutOfMemory;
    }
    AddedSteady(old(v.sys), v.sys, r.value, boot);
    return Made(r.value);
  }

  method DoFork(v: PageTables, src: nat, boot: nat) returns (out: Outcome)
    requires v.Valid(None) && v.SpacesOk() && boot in v.spaces
    modifies v`mem, v`sys, v`spaces, v.pmm, v.pmm.bitmap, v.pmm.refcount
    ensures v.Valid(None) && v.SpacesOk() && boot in v.spaces && Steady(old(v.sys), v.sys, boot)
    ensures SpecStep(old(Shown(v, boot)), Fork(src), out, Shown(v, boot))
    ensures Honest(old(v.sys), v.sys, old(v.cur), Fork(src), out)
  {
    hide Inv, Kept, Sound, Steady, SpacesIn, Forked, SameTables, CopiedPages;
    SteadySame(v.sys, boot);
    if src !in v.spaces || |v.spaces| >= REFCOUNT_MAX {
      return Refused;
    }
    var r := v.CloneUserAddressSpace(src);
    if r.None? {
      CalmSteady(old(v.sys), v.sys, boot);
      return OutOfMemory;
    }
    ForkedPages(old(v.sys), v.sys, src, r.value);
    ForkedSteady(old(v.sys), v.sys, src, r.value, boot);
    return Made(r.value);
  }

  lemma ForkedSteady(s: Sys, s': Sys, src: nat, d: nat, boot: nat)
    requires Kept(s, s') && SameTables(s, s', d) && Forked(Maps(s), Maps(s'), src, d) && boot != d
    ensures Steady(s, s', boot)
  {}

  method DoDestroy(v: PageTables, r: nat, boot: nat) returns (out: Outcome)
    requires v.Valid(None) && v.SpacesOk() && boot in v.spaces
    modifies v`mem, v`sys, v`spaces, v.pmm, v.pmm.bitmap, v.pmm.refcount
    ensures v.Valid(None) && v.SpacesOk() && boot in v.spaces && Steady(old(v.sys), v.sys, boot)
    ensures SpecStep(old(Shown(v, boot)), Destroy(r), out, Shown(v, boot))
  {
    hide Inv, Kept, Sound, Steady, SpacesIn, SpaceRemoved, DroppedPages;
    SteadySame(v.sys, boot);
    if r !in v.spaces || r == v.cur || r == boot {
      return Refused;
    }
    v.DestroyUserAddressSpace(r);
    RemovedPages(old(v.sys), v.sys, r);
    RemovedSteady(old(v.sys), v.sys, r, boot);
    return Done;
  }

  lemma RemovedSteady(s: Sys, s': Sys, r: nat, boot: nat)
    requires SpaceRemoved(s, s', r) && boot != r
    ensures Steady(s, s', boot)
  {}

  /** Anonymous memory is mapped in process spaces, above the identity window, where nothing is mapped. */
  method DoMap(v: PageTables, r: nat, virt: nat, write: bool, nx: bool, boot: nat) returns (out: Outcome)
    requires v.Valid(None) && v.SpacesOk() && boot in v.spaces
    modifies v`mem, v`sys, v.pmm, v.pmm.bitmap, v.pmm.refcount
    ensures v.Valid(None) && v.SpacesOk() && Steady(old(v.sys), v.sys, boot)
    ensures SpecStep(old(Shown(v, boot)), Map(r, virt, write, nx), out, Shown(v, boot))
    ensures Honest(old(v.sys), v.sys, old(v.cur), Map(r, virt, write, nx), out)
  {
    hide Inv, Kept, Sound, Steady, PathOf, Pages;
    SteadySame(v.sys, boot);
    if r !in v.spaces || r == boot || !(IDENTITY_TOP <= virt < USER_SPACE_TOP) {
      return Refused;
    }
    var e := FinalEntry(v.mem, r, virt);
    MappedOrNot(v.sys, r, virt);
    if e.present {
      return Refused;
    }
    var ok := MapFresh(v, r, virt, write, nx, boot);
    out := if ok then Done else OutOfMemory;
  }

  method MapFresh(v: PageTables, r: nat, virt: nat, write: bool, nx: bool, ghost boot: nat) returns (ok: bool)
    requires v.Valid(None) && v.SpacesOk() && r in v.spaces && r != boot && IDENTITY_TOP <= virt < USER_SPACE_TOP
    requires PathOf(r, virt) !in v.sys.leaf
    modifies v`mem, v`sys, v.pmm, v.pmm.bitmap, v.pmm.refcount
    ensures v.Valid(None) && v.SpacesOk() && Steady(old(v.sys), v.sys, boot)
    ensures Pages(v.sys) ==
      if ok then Pages(old(v.sys))[PathOf(r, virt) := PageView(ZeroPage(), write, nx)] else Pages(old(v.sys))
    ensures !ok ==> |old(v.sys.free)| <= 5 && |v.sys.free| <= 1
  {
    hide Inv, Kept, Sound, Steady, PathOf, TreeGrown, Pages;
    UserIsPrivate(r, virt);
    ok := v.MapZeroPage(r, virt, write, nx);
    MappedSteady(old(v.sys), v.sys, PathOf(r, virt), boot);
    SpacesMapped(old(v.sys), v.sys, v.spaces, v.cur, PathOf(r, virt));
    if ok {
      MappedPages(old(v.sys), v.sys, PathOf(r, virt), PageView(ZeroPage(), write, nx));
    } else {
      SamePages(old(v.sys), v.sys);
    }
  }

  lemma MappedOrNot(s: Sys, r: nat, virt: nat)
    requires Inv(s, None) && HasSpace(s, r) && IDENTITY_TOP <= virt < USER_SPACE_TOP
    ensures FinalEntry(s.mem, r, virt).present <==> PathOf(r, virt) in s.leaf
    ensures PathOf(r, virt) in s.leaf <==> PathOf(r, virt) in Pages(s)
  {
    WalkIsFlat(s, None, r, virt);
    PathShape(r, virt);
    UserIsPrivate(r, virt);
    NoHugeUser(s, None, r, virt);
    var l := PathOf(r, virt);
    assert LeafOk(s.tree, s.leaf, s.users, l) && LeafOk(s.tree, s.leaf, s.users, l.up) && SpaceOf(l.up) == SpaceOf(l);
  }

  method DoUnmap(v: PageTables, r: nat, virt: nat, boot: nat) returns (out: Outcome)
    requires v.Valid(None) && v.SpacesOk()
    modifies v`mem, v`sys, v.pmm, v.pmm.bitmap, v.pmm.refcount
    ensures v.Valid(None) && v.SpacesOk() && Steady(old(v.sys), v.sys, boot)
    ensures SpecStep(old(Shown(v, boot)), Unmap(r, virt), out, Shown(v, boot))
  {
    hide Inv, Kept, Sound, Steady, PathOf;
    SteadySame(v.sys, boot);
    if r !in v.spaces {
      return Refused;
    }
    v.UnmapUserPage(r, virt);
    CalmSteady(old(v.sys), v.sys, boot);
    return Done;
  }

  method DoStore(v: PageTables, addr: nat, value: byte, boot: nat) returns (out: Outcome)
    requires v.Valid(None) && v.SpacesOk()
    modifies v`mem, v`sys, v.pmm, v.pmm.bitmap, v.pmm.refcount
    ensures v.Valid(None) && v.SpacesOk() && Steady(old(v.sys), v.sys, boot)
    ensures SpecStep(old(Shown(v, boot)), Store(addr, value), out, Shown(v, boot))
    ensures Honest(old(v.sys), v.sys, old(v.cur), Store(addr, value), out)
  {
    hide Inv, Kept, Sound, Steady, PathOf, Pages;
    out := UserStore(v, addr, value, boot);
    OneByte(Pages(old(v.sys)), v.cur, addr, value);
    WriteBytesShape(Pages(old(v.sys)), v.cur, addr, [value]);
    CalmSteady(old(v.sys), v.sys, boot);
  }

  method DoCopyOut(v: PageTables, addr: nat, bytes: seq<byte>, boot: nat) returns (out: Outcome)
    requires v.Valid(None) && v.SpacesOk()
    modifies v`mem, v`sys, v.pmm, v.pmm.bitmap, v.pmm.refcount
    ensures v.Valid(None) && v.SpacesOk() && Steady(old(v.sys), v.sys, boot)
    ensures SpecStep(old(Shown(v, boot)), CopyOut(addr, bytes), out, Shown(v, boot))
    ensures Honest(old(v.sys), v.sys, old(v.cur), CopyOut(addr, bytes), out)
  {
    hide Inv, Kept, Sound, Steady, PathOf, Pages;
    var ok, done := CopyToUser(v, addr, bytes);
    WriteBytesShape(Pages(old(v.sys)), v.cur, addr, bytes[..done]);
    CalmSteady(old(v.sys), v.sys, boot);
    return Wrote(done);
  }

  method DoSwitch(v: PageTables, r: nat, boot: nat) returns (out: Outcome)
    requires v.Valid(None) && v.SpacesOk()
    modifies v`cur
    ensures v.Valid(None) && v.SpacesOk()
    ensures SpecStep(old(Shown(v, boot)), Switch(r), out, Shown(v, boot))
  {
    if r !in v.spaces {
      return Refused;
    }
    v.cur := r;
    return Done;
  }

  method Perform(v: PageTables, op: Op, boot: nat) returns (out: Outcome)
    requires v.Valid(None) && v.SpacesOk() && boot in v.spaces
    modifies v`mem, v`sys, v`spaces, v`cur, v.pmm, v.pmm.bitmap, v.pmm.refcount
    ensures v.Valid(None) && v.SpacesOk() && boot in v.spaces && Steady(old(v.sys), v.sys, boot)
    ensures SpecStep(old(Shown(v, boot)), op, out, Shown(v, boot))
    ensures Honest(old(v.sys), v.sys, old(v.cur), op, out)
  {
    hide Inv, Kept, Sound, Steady, SpacesIn, Pages, SpecStep;
    match op
    case Create => out := DoCreate(v, boot);
    case Fork(src) => out := DoFork(v, src, boot);
    case Destroy(r) => out := DoDestroy(v, r, boot);
    case Map(r, virt, write, nx) => out := DoMap(v, r, virt, write, nx, boot);
    case Unmap(r, virt) => out := DoUnmap(v, r, virt, boot);
    case Store(addr, value) => out := DoStore(v, addr, value, boot);
    case CopyOut(addr, bytes) => out := DoCopyOut(v, addr, bytes, boot);
    case Switch(r) =>
      SteadySame(v.sys, boot);
      out := DoSwitch(v, r, boot);
  }

  /** What is to be seen, and the machine that shows it. */
  datatype Moment = Moment(spec: Spec, sys: Sys)

  ghost predicate RunStep(m: Moment, op: Op, out: Outcome, m': Moment)
  {
    && m.spec.pages == Pages(m.sys) && m'.spec.pages == Pages(m'.sys)
    && Inv(m.sys, None) && Inv(m'.sys, None) && Steady(m.sys, m'.sys, m.spec.boot)
    && SpecStep(m.spec, op, out, m'.spec) && Honest(m.sys, m'.sys, m.spec.current, op, out)
  }

  /** The moments of a run, one specification step apart; an operation falls short only
      where frames do. */
  ghost predicate IsRun(ms: seq<Moment>, ops: seq<Op>, outs: seq<Outcome>)
  {
    && |outs| == |ops| && |ms| == |ops| + 1
    && forall i :: 0 <= i < |ops| ==> RunStep(ms[i], ops[i], outs[i], ms[i + 1])
  }

  /** Every run of the kernel's operations is a run of the specification, and a
      run that starts and ends with the boot space alone leaves the allocator as
      it was: no frame is lost and none is counted twice. */
  method Run(v: PageTables, ops: seq<Op>, boot: nat) returns (outs: seq<Outcome>, ghost ms: seq<Moment>)
    requires v.Valid(None) && v.SpacesOk() && boot in v.spaces
    modifies v`mem, v`sys, v`spaces, v`cur, v.pmm, v.pmm.bitmap, v.pmm.refcount
    ensures v.Valid(None) && v.SpacesOk() && boot in v.spaces
    ensures IsRun(ms, ops, outs)
    ensures ms[0] == old(Moment(Shown(v, boot), v.sys)) && ms[|ops|] == Moment(Shown(v, boot), v.sys)
    ensures old(v.spaces) == {boot} == v.spaces && Pages(old(v.sys)) == map[] ==>
      v.pmm.free == old(v.pmm.free) && v.pmm.rc == old(v.pmm.rc)
  {
    hide Inv, Kept, Sound, Steady, SpacesIn, Pages, SpecStep, Honest;
    outs, ms := [], [Moment(Shown(v, boot), v.sys)];
    SteadySame(v.sys, boot);
    for n := 0 to |ops|
      invariant v.Valid(None) && v.SpacesOk() && boot in v.spaces && Steady(old(v.sys), v.sys, boot)
      invariant IsRun(ms, ops[..n], outs)
      invariant ms[0] == old(Moment(Shown(v, boot), v.sys)) && ms[n] == Moment(Shown(v, boot), v.sys)
    {
      ghost var s, m := v.sys, ms[n];
      var out := Perform(v, ops[n], boot);
      SteadyTrans(old(v.sys), s, v.sys, boot);
      assert RunStep(m, ops[n], out, Moment(Shown(v, boot), v.sys));
      RunNext(ms, ops[..n], outs, Moment(Shown(v, boot), v.sys), ops[n], out);
      assert ops[..n] + [ops[n]] == ops[..n + 1];
      outs, ms := outs + [out], ms + [Moment(Shown(v, boot), v.sys)];
    }
    assert ops[..|ops|] == ops;
    if old(v.spaces) == {boot} && v.spaces == {boot} && Pages(old(v.sys)) == map[] {
      AllReturned(old(v.sys), v.sys, old(v.cur), v.cur, boot);
    }
  }

  lemma RunNext(ms: seq<Moment>, ops: seq<Op>, outs: seq<Outcome>, m: Moment, op: Op, out: Outcome)
    requires IsRun(ms, ops, outs) && RunStep(ms[|ops|], op, out, m)
    ensures IsRun(ms + [m], ops + [op], outs + [out])
  {}

  /** With the boot space alone, before and after, the allocator is as it was. */
  lemma AllReturned(s: Sys, s': Sys, cur: nat, cur': nat, boot: nat)
    requires Inv(s, None) && Inv(s', None) && Steady(s, s', boot)
    requires SpacesIn(s, {boot}, cur) && SpacesIn(s', {boot}, cur') && Pages(s) == map[]
    ensures s'.free == s.free && s'.rc == s.rc
  {
    forall q ensures q in s.tree <==> q in s'.tree
             ensures q in s.tree ==> s'.tree[q] == s.tree[q] {
      OnlyBoot(s, cur, boot, q);
      OnlyBoot(s', cur', boot, q);
    }
    assert s.tree == s'.tree;
    forall l ensures l !in Maps(s) && l !in Maps(s') {
      assert l !in Pages(s);
      assert LeafOk(s'.tree, s'.leaf, s'.users, l);
      if l.Sub? {
        OnlyBoot(s', cur', boot, l.up);
        assert SpaceOf(l) == SpaceOf(l.up);
      }
    }
    AllocatorDetermined(s, s');
  }

  lemma OnlyBoot(s: Sys, cur: nat, boot: nat, q: Path)
    requires Inv(s, None) && SpacesIn(s, {boot}, cur)
    ensures q in s.tree && IsPrivate(q) ==> SpaceOf(q) == Private(boot)
  {
    if q in s.tree && IsPrivate(q) {
      BelowRoot(q);
      if q != Root(SpaceOf(q)) { AncestorsIn(s, q, Root(SpaceOf(q))); }
    }
  }
}
