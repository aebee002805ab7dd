/** User memory seen byte by byte, and the page-chunked kernel copies over it. */
module UserMemory {
  import opened Wrappers
  import opened Paging
  import opened Pmm
  import opened Tables
  import opened Views
  import opened Walk
  import opened Vmm

  /** The specification: what one byte store does to the pages all processes see. */
  ghost function WriteByte(pages: map<Path, PageView>, root: nat, addr: nat, b: byte): map<Path, PageView>
  {
    var l := PathOf(root, addr);
    if l in pages then pages[l := pages[l].(bytes := pages[l].bytes[addr % PAGE_SIZE := b])] else pages
  }

  ghost function WriteBytes(pages: map<Path, PageView>, root: nat, addr: nat, bs: seq<byte>): map<Path, PageView>
    decreases |bs|
  {
    if bs == [] then pages
    else WriteBytes(WriteByte(pages, root, addr, bs[0]), root, addr + 1, bs[1..])
  }

  datatype Access = Granted | Denied

  /** May the kernel touch the byte at addr for the process? */
  ghost function AccessTo(pages: map<Path, PageView>, root: nat, addr: nat, write: bool): Access
  {
    var l := PathOf(root, addr);
    if addr == 0 || addr >= USER_SPACE_TOP || l !in pages || (write && !pages[l].writable) then Denied else Granted
  }

  /** Each of the n bytes from addr on may be touched. */
  ghost predicate AllGranted(pages: map<Path, PageView>, root: nat, addr: nat, n: nat, write: bool)
  {
    forall a :: addr <= a < addr + n ==> AccessTo(pages, root, a, write) == Granted
  }

  /** One of the n bytes from addr on may not be touched, or they run past the top of user space. */
  ghost predicate Barred(pages: map<Path, PageView>, root: nat, addr: nat, n: nat, write: bool)
  {
    (exists a :: addr <= a < addr + n && AccessTo(pages, root, a, write) == Denied) || addr + n > USER_SPACE_TOP
  }

  /** No frame is left for the copy that a write to this shared page would need. */
  ghost predicate NoFrameFor(s: Sys, root: nat, addr: nat)
  {
    var l := PathOf(root, addr);
    s.free == {} && l in s.leaf && !s.leaf[l].write && Sharers(s, s.leaf[l].frame) > 1
  }

  /** Byte stores keep the mapped pages and their permissions. */
  lemma {:induction false} WriteBytesShape(pages: map<Path, PageView>, root: nat, addr: nat, bs: seq<byte>)
    ensures WriteBytes(pages, root, addr, bs).Keys == pages.Keys
    ensures forall l :: l in pages ==>
      var q := WriteBytes(pages, root, addr, bs)[l]; q.writable == pages[l].writable && q.nx == pages[l].nx
    decreases |bs|
  {
    if bs != [] {
      WriteBytesShape(WriteByte(pages, root, addr, bs[0]), root, addr + 1, bs[1..]);
    }
  }

  lemma {:induction false} WriteBytesSplit(pages: map<Path, PageView>, root: nat, addr: nat, xs: seq<byte>,
                                           ys: seq<byte>)
    ensures WriteBytes(pages, root, addr, xs + ys) ==
            WriteBytes(WriteBytes(pages, root, addr, xs), root, addr + |xs|, ys)
    decreases |xs|
  {
    if xs == [] {
      assert xs + ys == ys;
    } else {
      assert (xs + ys)[1..] == xs[1..] + ys;
      WriteBytesSplit(WriteByte(pages, root, addr, xs[0]), root, addr + 1, xs[1..], ys);
    }
  }

  /** The bytes of a page with bs written at off, as memcpy does. */
  function Splice(page: Page, off: nat, bs: seq<byte>): Page
    requires off + |bs| <= PAGE_SIZE
  {
    page[..off] + bs + page[off + |bs|..]
  }

  lemma NextAddr(root: nat, addr: nat)
    requires addr % PAGE_SIZE + 1 < PAGE_SIZE
    ensures PathOf(root, addr + 1) == PathOf(root, addr) && (addr + 1) % PAGE_SIZE == addr % PAGE_SIZE + 1
  {
    assert AlignDown(addr + 1) == AlignDown(addr);
    SamePage(root, addr);
    SamePage(root, addr + 1);
  }

  /** Inside one page, byte-by-byte stores amount to one splice. */
  lemma {:induction false} WriteBytesInPage(pages: map<Path, PageView>, root: nat, addr: nat, bs: seq<byte>)
    requires PathOf(root, addr) in pages && addr % PAGE_SIZE + |bs| <= PAGE_SIZE
    ensures var l := PathOf(root, addr);
      WriteBytes(pages, root, addr, bs) ==
      pages[l := pages[l].(bytes := Splice(pages[l].bytes, addr % PAGE_SIZE, bs))]
    decreases |bs|
  {
    hide PathOf;
    var l, off := PathOf(root, addr), addr % PAGE_SIZE;
    var page := pages[l].bytes;
    if bs == [] {
      assert Splice(page, off, bs) == page;
    } else {
      var p1 := WriteByte(pages, root, addr, bs[0]);
      if |bs| == 1 {
        assert Splice(page, off, bs) == page[off := bs[0]];
        assert bs[1..] == [];
      } else {
        NextAddr(root, addr);
        WriteBytesInPage(p1, root, addr + 1, bs[1..]);
        assert Splice(page[off := bs[0]], off + 1, bs[1..]) == Splice(page, off, bs);
      }
    }
  }

  /** The physical address behind a user address, after any copy-on-write fault
      that a kernel write would have caused. */
  method UserPageForCopy(v: PageTables, addr: nat, write: bool) returns (r: Option<nat>)
    requires v.Valid(None) && v.SpacesOk()
    modifies v`mem, v`sys, v.pmm, v.pmm.bitmap, v.pmm.refcount
    ensures v.Valid(None) && v.SpacesOk() && Kept(old(v.sys), v.sys) && v.sys.tree == old(v.sys.tree)
    ensures Pages(v.sys) == Pages(old(v.sys))
    ensures r.Some? ==> ghost var l := PathOf(v.cur, addr);
      && AccessTo(Pages(v.sys), v.cur, addr, write) == Granted
      && l in v.sys.leaf && IsPrivate(l) && (write ==> v.sys.leaf[l].write)
      && r.value == v.sys.leaf[l].frame * PAGE_SIZE + addr % PAGE_SIZE
    ensures r.None? ==>
      AccessTo(Pages(v.sys), v.cur, addr, write) == Denied || (write && NoFrameFor(v.sys, v.cur, addr))
  {
    hide Inv, Kept, Sound, PathOf, Maps, Pages, AlignDown;
    KeptSame(v.sys);
    LeafIsPage(v.sys, PathOf(v.cur, addr));
    if addr == 0 || addr >= USER_SPACE_TOP {
      return None;
    }
    var page := AlignDown(addr);
    SamePage(v.cur, addr);
    UserLeaf(v.sys, v.cur, page);
    var e := FinalEntry(v.mem, v.cur, page);
    if !(e.present && e.user) {
      return None;
    }
    if write && !e.write {
      if !e.cow {
        return None;
      }
      var ok := v.HandlePageFault(addr, true, true);
      if !ok {
        return None;
      }
      UserLeaf(v.sys, v.cur, page);
      assert FinalEntry(v.mem, v.cur, page).write;
    }
    UserLeaf(v.sys, v.cur, addr);
    r := GetPhysical(v.mem, v.cur, addr);
  }

  lemma LeafIsPage(s: Sys, l: Path)
    ensures l in Pages(s) <==> l in s.leaf && IsPrivate(l)
  {}

  /** The walk finds a user entry exactly where a page is mapped, and finds that page. */
  lemma UserLeaf(s: Sys, root: nat, addr: nat)
    requires Inv(s, None) && HasSpace(s, root)
    ensures var l := PathOf(root, addr); var e := FinalEntry(s.mem, root, addr);
      && (e.present && e.user <==> l in Pages(s))
      && (l in Pages(s) ==>
            && l in s.leaf && IsPrivate(l) && e == s.leaf[l] && Pages(s)[l] == PageOf(s.mem, e).page
            && GetPhysical(s.mem, root, addr) == Some(e.frame * PAGE_SIZE + addr % PAGE_SIZE))
  {
    var l := PathOf(root, addr);
    PathShape(root, addr);
    WalkIsFlat(s, None, root, addr);
    PhysicalIsFlat(s, None, root, addr);
    assert LeafOk(s.tree, s.leaf, s.users, l) && LeafOk(s.tree, s.leaf, s.users, l.up);
  }

  /** memcpy into the frame behind a writable leaf: that page changes, and no other. */
  method WriteFrame(v: PageTables, phys: nat, bs: seq<byte>, ghost l: Path)
    requires v.Valid(None) && l in v.sys.leaf && IsPrivate(l) && v.sys.leaf[l].write
    requires phys / PAGE_SIZE == v.sys.leaf[l].frame && phys % PAGE_SIZE + |bs| <= PAGE_SIZE
    modifies v`mem, v`sys
    ensures v.Valid(None) && Kept(old(v.sys), v.sys) && v.sys.tree == old(v.sys.tree)
    ensures v.sys.leaf == old(v.sys.leaf) && v.sys.free == old(v.sys.free)
    ensures l in Pages(old(v.sys))
    ensures ghost var p := Pages(old(v.sys))[l];
      Pages(v.sys) == Pages(old(v.sys))[l := p.(bytes := Splice(p.bytes, phys % PAGE_SIZE, bs))]
  {
    hide Kept, Sound;
    var f := phys / PAGE_SIZE;
    assert LeafOk(v.sys.tree, v.sys.leaf, v.sys.users, l);
    assert UserOk(v.sys, f, None);
    var bytes := Splice(v.mem[f].bytes, phys % PAGE_SIZE, bs);
    WriteDataInv(v.sys, f, bytes, None);
    WriteDataView(v.sys, l, bytes);
    v.mem := v.mem[f := Data(bytes)];
    v.sys := v.sys.(mem := v.mem);
  }

  lemma PhysSplit(phys: nat, frame: nat, off: nat)
    requires off < PAGE_SIZE && phys == frame * PAGE_SIZE + off
    ensures phys / PAGE_SIZE == frame && phys % PAGE_SIZE == off
  {}

  /** How many of len bytes at addr lie in its page. */
  function ChunkLen(addr: nat, len: nat): (k: nat)
    ensures k <= len && (len > 0 ==> k > 0) && addr % PAGE_SIZE + k <= PAGE_SIZE
  {
    if PAGE_SIZE - addr % PAGE_SIZE < len then PAGE_SIZE - addr % PAGE_SIZE else len
  }

  /** One chunk of a copy to user: the bytes from addr on, inside its page. */
  method WriteChunk(v: PageTables, addr: nat, phys: nat, bs: seq<byte>, ghost now: map<Path, PageView>)
    requires v.Valid(None) && Pages(v.sys) == now && addr % PAGE_SIZE + |bs| <= PAGE_SIZE
    requires ghost var l := PathOf(v.cur, addr);
      && l in v.sys.leaf && IsPrivate(l) && v.sys.leaf[l].write
      && phys == v.sys.leaf[l].frame * PAGE_SIZE + addr % PAGE_SIZE
    modifies v`mem, v`sys
    ensures v.Valid(None) && Kept(old(v.sys), v.sys) && v.sys.tree == old(v.sys.tree)
    ensures v.sys.free == old(v.sys.free)
    ensures Pages(v.sys) == WriteBytes(now, v.cur, addr, bs)
  {
    ghost var l := PathOf(v.cur, addr);
    PhysSplit(phys, v.sys.leaf[l].frame, addr % PAGE_SIZE);
    WriteFrame(v, phys, bs, l);
    WriteBytesInPage(now, v.cur, addr, bs);
  }

  /** A prefix of n bytes followed by a chunk of k bytes is a prefix of n + k bytes. */
  lemma ChunkDone(before: map<Path, PageView>, now: map<Path, PageView>, after: map<Path, PageView>,
                  root: nat, dst: nat, src: seq<byte>, n: nat, n': nat, addr: nat)
    requires n <= n' <= |src| && addr == dst + n && now == WriteBytes(before, root, dst, src[..n])
    requires after == WriteBytes(now, root, addr, src[n..n'])
    ensures after == WriteBytes(before, root, dst, src[..n'])
  {
    WriteBytesSplit(before, root, dst, src[..n], src[n..n']);
    assert src[..n] + src[n..n'] == src[..n'];
  }

  lemma WriteNone(pages: map<Path, PageView>, root: nat, addr: nat, bs: seq<byte>)
    ensures WriteBytes(pages, root, addr, bs[..0]) == pages
  {}

  lemma DeniedOutside(pages: map<Path, PageView>, root: nat, addr: nat, write: bool)
    ensures addr == 0 || addr >= USER_SPACE_TOP ==> AccessTo(pages, root, addr, write) == Denied
  {}

  lemma AccessSame(pages: map<Path, PageView>, root: nat, dst: nat, bs: seq<byte>, addr: nat, write: bool)
    ensures AccessTo(WriteBytes(pages, root, dst, bs), root, addr, write) == AccessTo(pages, root, addr, write)
  {
    WriteBytesShape(pages, root, dst, bs);
  }

  /** Permissions are those of the page. */
  lemma GrantedInPage(pages: map<Path, PageView>, root: nat, from: nat, n: nat, addr: nat, k: nat, write: bool)
    requires AllGranted(pages, root, from, n, write) && addr == from + n
    requires AccessTo(pages, root, addr, write) == Granted && addr % PAGE_SIZE + k <= PAGE_SIZE
    ensures AllGranted(pages, root, from, n + k, write)
  {
    hide PathOf;
    forall a | from <= a < from + n + k ensures AccessTo(pages, root, a, write) == Granted {
      if a >= addr {
        assert addr + (a - addr) == a;
        SamePageRun(root, addr, a - addr);
        assert USER_SPACE_TOP % PAGE_SIZE == 0;
      }
    }
  }

  lemma DeniedBars(pages: map<Path, PageView>, root: nat, addr: nat, n: nat, a: nat, write: bool)
    requires addr <= a < addr + n && AccessTo(pages, root, a, write) == Denied
    ensures Barred(pages, root, addr, n, write)
  {}

  /** What every step of a copy keeps. */
  ghost predicate Undisturbed(v: PageTables, s0: Sys)
    reads v, v.pmm, v.pmm.bitmap, v.pmm.refcount
  {
    v.Valid(None) && v.SpacesOk() && Kept(s0, v.sys) && v.sys.tree == s0.tree
  }

  /** Kernel to user, page by page, is byte by byte. On failure a prefix of `done`
      bytes has been written, and the next byte may not be written, no frame is
      left for its copy, or the range runs past the top of user space. */
  method CopyToUser(v: PageTables, dst: nat, src: seq<byte>) returns (ok: bool, done: nat)
    requires v.Valid(None) && v.SpacesOk()
    modifies v`mem, v`sys, v.pmm, v.pmm.bitmap, v.pmm.refcount
    ensures Undisturbed(v, old(v.sys))
    ensures done <= |src| && (ok <==> done == |src|)
    ensures Pages(v.sys) == WriteBytes(Pages(old(v.sys)), v.cur, dst, src[..done])
    ensures AllGranted(Pages(old(v.sys)), v.cur, dst, done, true)
    ensures !ok ==> || AccessTo(Pages(old(v.sys)), v.cur, dst + done, true) == Denied
                    || NoFrameFor(v.sys, v.cur, dst + done) || dst + |src| > USER_SPACE_TOP
  {
    hide PathOf, AccessTo, WriteBytes, Pages;
    GrownSame(v.sys, Root(Shared));
    done := 0;
    WriteNone(Pages(v.sys), v.cur, dst, src);
    if |src| == 0 {
      ok := true;
      return;
    }
    if dst == 0 || dst >= USER_SPACE_TOP || |src| > USER_SPACE_TOP - dst {
      ok := false;
      DeniedOutside(Pages(v.sys), v.cur, dst + done, true);
      return;
    }
    ok, done := WritePages(v, dst, src);
  }

  method WritePages(v: PageTables, dst: nat, src: seq<byte>) returns (ok: bool, done: nat)
    requires v.Valid(None) && v.SpacesOk()
    modifies v`mem, v`sys, v.pmm, v.pmm.bitmap, v.pmm.refcount
    ensures Undisturbed(v, old(v.sys))
    ensures done <= |src| && (ok <==> done == |src|)
    ensures Pages(v.sys) == WriteBytes(Pages(old(v.sys)), v.cur, dst, src[..done])
    ensures AllGranted(Pages(old(v.sys)), v.cur, dst, done, true)
    ensures !ok ==>
      AccessTo(Pages(old(v.sys)), v.cur, dst + done, true) == Denied || NoFrameFor(v.sys, v.cur, dst + done)
  {
    hide PathOf, AccessTo, WriteBytes, Pages;
    GrownSame(v.sys, Root(Shared));
    done := 0;
    WriteNone(Pages(v.sys), v.cur, dst, src);
    while done < |src|
      invariant done <= |src| && Undisturbed(v, old(v.sys))
      invariant Pages(v.sys) == WriteBytes(Pages(old(v.sys)), v.cur, dst, src[..done])
      invariant AllGranted(Pages(old(v.sys)), v.cur, dst, done, true)
    {
      ok, done := CopyPage(v, dst, src, done, old(v.sys), Pages(old(v.sys)));
      if !ok {
        return;
      }
    }
    ok := true;
  }

  /** One step of the copy: as many of the remaining bytes as lie in the page of dst + n. */
  method CopyPage(v: PageTables, dst: nat, src: seq<byte>, n: nat, ghost s0: Sys, ghost before: map<Path, PageView>)
    returns (ok: bool, n': nat)
    requires Undisturbed(v, s0) && n < |src|
    requires Pages(v.sys) == WriteBytes(before, v.cur, dst, src[..n]) && AllGranted(before, v.cur, dst, n, true)
    modifies v`mem, v`sys, v.pmm, v.pmm.bitmap, v.pmm.refcount
    ensures Undisturbed(v, s0) && n <= n' <= |src| && (ok ==> n < n') && (!ok ==> n' == n)
    ensures Pages(v.sys) == WriteBytes(before, v.cur, dst, src[..n']) && AllGranted(before, v.cur, dst, n', true)
    ensures !ok ==> AccessTo(before, v.cur, dst + n', true) == Denied || NoFrameFor(v.sys, v.cur, dst + n')
  {
    hide PathOf, AccessTo, WriteBytes, Pages;
    ghost var s1, now := v.sys, Pages(v.sys);
    var addr := dst + n;
    AccessSame(before, v.cur, dst, src[..n], addr, true);
    var phys := UserPageForCopy(v, addr, true);
    KeptTrans(s0, s1, v.sys);
    if phys.None? {
      return false, n;
    }
    ghost var s2 := v.sys;
    var k := ChunkLen(addr, |src| - n);
    n' := n + k;
    GrantedInPage(before, v.cur, dst, n, addr, k, true);
    WriteChunk(v, addr, phys.value, src[n..n'], now);
    KeptTrans(s0, s2, v.sys);
    ChunkDone(before, now, Pages(v.sys), v.cur, dst, src, n, n', addr);
    ok := true;
  }

  /** The byte a process reads at addr. */
  ghost function ByteAt(pages: map<Path, PageView>, root: nat, addr: nat): Option<byte>
  {
    var l := PathOf(root, addr);
    if l in pages then Some(pages[l].bytes[addr % PAGE_SIZE]) else None
  }

  /** The user bytes at addr, addr + 1, ... as the process sees them. */
  ghost predicate Reads(pages: map<Path, PageView>, root: nat, addr: nat, bs: seq<byte>)
  {
    forall i {:trigger bs[i]} :: 0 <= i < |bs| ==> ByteAt(pages, root, addr + i) == Some(bs[i])
  }

  /** One byte store, read back anywhere. */
  lemma ByteStored(pages: map<Path, PageView>, root: nat, addr: nat, b: byte, a: nat)
    requires IDENTITY_TOP <= addr < USER_SPACE_TOP && IDENTITY_TOP <= a < USER_SPACE_TOP && PathOf(root, addr) in pages
    ensures ByteAt(WriteByte(pages, root, addr, b), root, a) == if a == addr then Some(b) else ByteAt(pages, root, a)
  {
    hide PathOf;
    if a != addr && PathOf(root, a) == PathOf(root, addr) {
      PlacesDiffer(root, a, addr);
      assert a % PAGE_SIZE != addr % PAGE_SIZE;
    }
  }

  /** A write is read back: the bytes written in its range, and what was there elsewhere. */
  lemma {:induction false} BytesStored(pages: map<Path, PageView>, root: nat, addr: nat, bs: seq<byte>, a: nat)
    requires IDENTITY_TOP <= addr && addr + |bs| <= USER_SPACE_TOP && IDENTITY_TOP <= a < USER_SPACE_TOP
    requires AllGranted(pages, root, addr, |bs|, true)
    ensures ByteAt(WriteBytes(pages, root, addr, bs), root, a) ==
      if addr <= a < addr + |bs| then Some(bs[a - addr]) else ByteAt(pages, root, a)
    decreases |bs|
  {
    hide PathOf, ByteAt;
    if bs != [] {
      var pages1 := WriteByte(pages, root, addr, bs[0]);
      assert AccessTo(pages, root, addr, true) == Granted;
      ByteStored(pages, root, addr, bs[0], a);
      forall x | addr + 1 <= x < addr + 1 + |bs[1..]| ensures AccessTo(pages1, root, x, true) == Granted {
        assert AccessTo(pages, root, x, true) == Granted;
      }
      BytesStored(pages1, root, addr + 1, bs[1..], a);
    }
  }

  lemma SamePageRun(root: nat, addr: nat, i: nat)
    requires addr % PAGE_SIZE + i < PAGE_SIZE
    ensures PathOf(root, addr + i) == PathOf(root, addr) && (addr + i) % PAGE_SIZE == addr % PAGE_SIZE + i
  {
    assert AlignDown(addr + i) == AlignDown(addr);
    SamePage(root, addr);
    SamePage(root, addr + i);
  }

  lemma ReadsInPage(pages: map<Path, PageView>, root: nat, addr: nat, k: nat)
    requires PathOf(root, addr) in pages && addr % PAGE_SIZE + k <= PAGE_SIZE
    ensures var off := addr % PAGE_SIZE; Reads(pages, root, addr, pages[PathOf(root, addr)].bytes[off..off + k])
  {
    var off := addr % PAGE_SIZE;
    var bs := pages[PathOf(root, addr)].bytes[off..off + k];
    forall i | 0 <= i < |bs| ensures ByteAt(pages, root, addr + i) == Some(bs[i]) {
      SamePageRun(root, addr, i);
    }
  }

  lemma ReadsNext(pages: map<Path, PageView>, root: nat, addr: nat, bs: seq<byte>, next: nat, cs: seq<byte>)
    requires next == addr + |bs| && Reads(pages, root, addr, bs) && Reads(pages, root, next, cs)
    ensures Reads(pages, root, addr, bs + cs)
  {
    forall i | 0 <= i < |bs + cs| ensures ByteAt(pages, root, addr + i) == Some((bs + cs)[i]) {
      if i >= |bs| {
        assert cs[i - |bs|] == (bs + cs)[i];
        assert addr + i == next + (i - |bs|);
      }
    }
  }

  /** User to kernel, page by page, yields every byte of the range. */
  method CopyFromUser(v: PageTables, src: nat, len: nat) returns (ok: bool, bs: seq<byte>)
    requires v.Valid(None) && v.SpacesOk()
    modifies v`mem, v`sys, v.pmm, v.pmm.bitmap, v.pmm.refcount
    ensures Undisturbed(v, old(v.sys))
    ensures Pages(v.sys) == Pages(old(v.sys)) && Reads(Pages(v.sys), v.cur, src, bs)
    ensures |bs| <= len && (ok <==> |bs| == len) && AllGranted(Pages(v.sys), v.cur, src, |bs|, false)
    ensures !ok ==> AccessTo(Pages(v.sys), v.cur, src + |bs|, false) == Denied || src + len > USER_SPACE_TOP
  {
    bs := [];
    hide PathOf, AccessTo, WriteBytes, Pages;
    GrownSame(v.sys, Root(Shared));
    if len == 0 {
      ok := true;
      return;
    }
    if src == 0 || src >= USER_SPACE_TOP || len > USER_SPACE_TOP - src {
      ok := false;
      DeniedOutside(Pages(v.sys), v.cur, src + |bs|, false);
      return;
    }
    ok, bs := ReadPages(v, src, len);
  }

  method ReadPages(v: PageTables, src: nat, len: nat) returns (ok: bool, bs: seq<byte>)
    requires v.Valid(None) && v.SpacesOk()
    modifies v`mem, v`sys, v.pmm, v.pmm.bitmap, v.pmm.refcount
    ensures Undisturbed(v, old(v.sys))
    ensures Pages(v.sys) == Pages(old(v.sys)) && Reads(Pages(v.sys), v.cur, src, bs)
    ensures |bs| <= len && (ok <==> |bs| == len) && AllGranted(Pages(v.sys), v.cur, src, |bs|, false)
    ensures !ok ==> AccessTo(Pages(v.sys), v.cur, src + |bs|, false) == Denied
  {
    hide PathOf, AccessTo, WriteBytes, Pages;
    GrownSame(v.sys, Root(Shared));
    bs := [];
    while |bs| < len
      invariant |bs| <= len && Undisturbed(v, old(v.sys))
      invariant Pages(v.sys) == Pages(old(v.sys)) && Reads(Pages(v.sys), v.cur, src, bs)
      invariant AllGranted(Pages(v.sys), v.cur, src, |bs|, false)
      decreases len - |bs|
    {
      var addr := src + |bs|;
      var cs;
      ok, cs := ReadPage(v, addr, len - |bs|, old(v.sys));
      if !ok {
        return;
      }
      ReadsNext(Pages(v.sys), v.cur, src, bs, addr, cs);
      GrantedInPage(Pages(v.sys), v.cur, src, |bs|, addr, |cs|, false);
      bs := bs + cs;
    }
    ok := true;
  }

  lemma PageSeen(s: Sys, l: Path)
    requires Inv(s, None) && l in s.leaf && IsPrivate(l)
    ensures var f := s.leaf[l].frame;
      f in s.mem && s.mem[f].Data? && l in Pages(s) && Pages(s)[l].bytes == s.mem[f].bytes
  {
    assert LeafOk(s.tree, s.leaf, s.users, l);
    assert UserOk(s, s.leaf[l].frame, None);
  }

  method ReadPage(v: PageTables, addr: nat, len: nat, ghost s0: Sys) returns (ok: bool, cs: seq<byte>)
    requires Undisturbed(v, s0) && len > 0
    modifies v`mem, v`sys, v.pmm, v.pmm.bitmap, v.pmm.refcount
    ensures Undisturbed(v, s0) && Pages(v.sys) == Pages(old(v.sys))
    ensures ok ==> 0 < |cs| <= len && Reads(Pages(v.sys), v.cur, addr, cs)
    ensures ok ==> addr % PAGE_SIZE + |cs| <= PAGE_SIZE && AccessTo(Pages(v.sys), v.cur, addr, false) == Granted
    ensures !ok ==> AccessTo(Pages(v.sys), v.cur, addr, false) == Denied
  {
    hide PathOf, AccessTo, WriteBytes, Pages;
    ghost var s1, l := v.sys, PathOf(v.cur, addr);
    var phys := UserPageForCopy(v, addr, false);
    KeptTrans(s0, s1, v.sys);
    if phys.None? {
      return false, [];
    }
    PhysSplit(phys.value, v.sys.leaf[l].frame, addr % PAGE_SIZE);
    var off, f := phys.value % PAGE_SIZE, phys.value / PAGE_SIZE;
    var k := ChunkLen(addr, len);
    PageSeen(v.sys, l);
    ReadsInPage(Pages(v.sys), v.cur, addr, k);
    return true, v.mem[f].bytes[off..off + k];
  }
}
