/** Loading an ELF64 executable into a fresh address space. */
module Elf {
  import opened Wrappers
  import opened Paging
  import opened Pmm
  import opened Tables
  import opened Views
  import opened Walk
  import opened Vmm
  import Words

  const EHDR_SIZE: nat := 64
  const PHDR_SIZE: nat := 56
  const PT_LOAD: nat := 1

  type File = seq<byte>

  function U16(f: File, off: nat): nat requires off + 2 <= |f| { Words.WordAt(f, off, 2) }

  function U32(f: File, off: nat): nat requires off + 4 <= |f| { Words.WordAt(f, off, 4) }

  function U64(f: File, off: nat): nat requires off + 8 <= |f| { Words.WordAt(f, off, 8) }

  /** start + size <= limit, computed without a sum that could wrap. */
  predicate RangeOk(start: nat, size: nat, limit: nat)
  {
    size <= limit && start <= limit - size
  }

  /** A program header; bits 0 and 1 of flags are PF_X and PF_W. */
  datatype Phdr = Phdr(kind: nat, flags: nat, offset: nat, vaddr: nat, filesz: nat, memsz: nat, align: nat)

  function PhdrAt(f: File, off: nat): Phdr
    requires off + PHDR_SIZE <= |f|
  {
    Phdr(U32(f, off), U32(f, off + 4), U64(f, off + 8), U64(f, off + 16),
         U64(f, off + 32), U64(f, off + 40), U64(f, off + 48))
  }

  /** The ELF header is one this kernel accepts. */
  predicate HeaderOk(f: File)
  {
    && |f| >= EHDR_SIZE
    && f[0] == 0x7f && f[1] == 0x45 && f[2] == 0x4c && f[3] == 0x46 && f[4] == 2 && f[5] == 1
    && U16(f, 16) == 2 && U16(f, 18) == 62 && U32(f, 20) == 1
    && U16(f, 52) == EHDR_SIZE && U16(f, 54) == PHDR_SIZE && 0 < U16(f, 56) <= 32
    && RangeOk(U64(f, 32), U16(f, 56) * U16(f, 54), |f|)
    && 0 < U64(f, 24) < USER_SPACE_TOP
  }

  function Entry(f: File): nat requires HeaderOk(f) { U64(f, 24) }

  function Count(f: File): nat requires HeaderOk(f) { U16(f, 56) }

  function Segment(f: File, i: nat): Phdr
    requires HeaderOk(f) && i < Count(f)
  {
    PhdrAt(f, U64(f, 32) + i * PHDR_SIZE)
  }

  /** The checks on a loadable segment. */
  predicate SegmentOk(ph: Phdr, size: nat)
  {
    && ph.filesz <= ph.memsz && ph.memsz != 0
    && RangeOk(ph.offset, ph.filesz, size) && RangeOk(ph.vaddr, ph.memsz, USER_SPACE_TOP)
    && (ph.align == 0 || ph.align == PAGE_SIZE)
  }

  function First(ph: Phdr): nat { AlignDown(ph.vaddr) }

  function AlignUp(a: nat): nat { AlignDown(a + PAGE_SIZE - 1) }

  function Last(ph: Phdr): nat { AlignUp(ph.vaddr + ph.memsz) }

  /** What belongs at an address of the segment's pages. */
  function ByteOf(f: File, ph: Phdr, addr: nat): byte
    requires RangeOk(ph.offset, ph.filesz, |f|)
  {
    if ph.vaddr <= addr < ph.vaddr + ph.filesz then f[ph.offset + (addr - ph.vaddr)] else 0
  }

  function Max(a: nat, b: nat): nat { if a > b then a else b }

  function Min(a: nat, b: nat): nat { if a < b then a else b }

  /** The page at page, cleared and then filled with the part of the file that falls into it. */
  function FillPage(f: File, ph: Phdr, page: nat): (p: Page)
    requires SegmentOk(ph, |f|)
    ensures forall i :: 0 <= i < PAGE_SIZE ==> p[i] == ByteOf(f, ph, page + i)
  {
    var from, to := Max(page, ph.vaddr), Min(page + PAGE_SIZE, ph.vaddr + ph.filesz);
    if from < to then
      var off := ph.offset + (from - ph.vaddr);
      assert page <= from < to <= page + PAGE_SIZE && off + (to - from) <= ph.offset + ph.filesz;
      var before, part, after := Zeros(from - page), f[off..off + (to - from)], Zeros(page + PAGE_SIZE - to);
      assert |before + part + after| == PAGE_SIZE;
      before + part + after
    else ZeroPage()
  }

  function Zeros(n: nat): (s: seq<byte>)
    ensures |s| == n
  {
    seq(n, _ => 0)
  }

  /** The file range of a page lies in the file once the segment's does, and no sum leaves 64 bits. */
  lemma InnerRange(f: File, ph: Phdr, page: nat)
    requires SegmentOk(ph, |f|) && |f| < 0x1_0000_0000_0000_0000
    ensures var from, to := Max(page, ph.vaddr), Min(page + PAGE_SIZE, ph.vaddr + ph.filesz);
      from < to ==>
        && RangeOk(ph.offset + (from - ph.vaddr), to - from, |f|)
        && ph.offset + (from - ph.vaddr) < 0x1_0000_0000_0000_0000
    ensures ph.vaddr + ph.memsz + PAGE_SIZE - 1 < 0x1_0000_0000_0000_0000
    ensures Last(ph) <= USER_SPACE_TOP
  {
    assert USER_SPACE_TOP % PAGE_SIZE == 0;
  }

  function MayWrite(ph: Phdr): bool { ph.flags / 2 % 2 == 1 }

  function NoExec(ph: Phdr): bool { ph.flags % 2 == 0 }

  function View(f: File, ph: Phdr, page: nat): PageView
    requires SegmentOk(ph, |f|)
  {
    PageView(FillPage(f, ph, page), MayWrite(ph), NoExec(ph))
  }

  // What loading makes of the pages.

  /** After the first n pages of a segment. */
  ghost function AfterPages(m: map<Path, PageView>, root: nat, f: File, ph: Phdr, n: nat): map<Path, PageView>
    requires SegmentOk(ph, |f|)
  {
    if n == 0 then m
    else
      var page := First(ph) + (n - 1) * PAGE_SIZE;
      AfterPages(m, root, f, ph, n - 1)[PathOf(root, page) := View(f, ph, page)]
  }

  function PageCount(ph: Phdr): nat
  {
    if First(ph) <= Last(ph) then (Last(ph) - First(ph)) / PAGE_SIZE else 0
  }

  /** After the first n program headers. */
  ghost function AfterSegments(m: map<Path, PageView>, root: nat, f: File, n: nat): map<Path, PageView>
    requires HeaderOk(f) && n <= Count(f) && SegmentsOk(f, n)
  {
    if n == 0 then m
    else
      var before := AfterSegments(m, root, f, n - 1);
      var ph := Segment(f, n - 1);
      if ph.kind == PT_LOAD then AfterPages(before, root, f, ph, PageCount(ph)) else before
  }

  /** The loadable ones among the first n segments pass their checks. */
  predicate SegmentsOk(f: File, n: nat)
    requires HeaderOk(f) && n <= Count(f)
  {
    forall i :: 0 <= i < n && Segment(f, i).kind == PT_LOAD ==> SegmentOk(Segment(f, i), |f|)
  }

  /** Some segment is loadable. */
  predicate SomeLoad(f: File, n: nat)
    requires HeaderOk(f) && n <= Count(f)
  {
    exists i :: 0 <= i < n && Segment(f, i).kind == PT_LOAD
  }

  /** Segments lie above the identity window and share no page. */
  ghost predicate Separate(f: File)
    requires HeaderOk(f)
  {
    && (forall i :: 0 <= i < Count(f) && Segment(f, i).kind == PT_LOAD ==> First(Segment(f, i)) >= IDENTITY_TOP)
    && (forall i, j :: 0 <= i < j < Count(f) && Segment(f, i).kind == PT_LOAD && Segment(f, j).kind == PT_LOAD ==>
          Last(Segment(f, i)) <= First(Segment(f, j)) || Last(Segment(f, j)) <= First(Segment(f, i)))
  }

  /** Multiples of the page size. */
  lemma Multiple(k: nat)
    ensures (k * PAGE_SIZE) % PAGE_SIZE == 0 && (k * PAGE_SIZE) / PAGE_SIZE == k
  {}

  lemma SpanPages(ph: Phdr)
    requires RangeOk(ph.vaddr, ph.memsz, USER_SPACE_TOP) && ph.memsz != 0
    ensures var a, b := ph.vaddr / PAGE_SIZE, (ph.vaddr + ph.memsz + PAGE_SIZE - 1) / PAGE_SIZE;
      && First(ph) == a * PAGE_SIZE && Last(ph) == b * PAGE_SIZE && a < b && b * PAGE_SIZE <= USER_SPACE_TOP
      && PageCount(ph) == b - a
  {
    var a, b := ph.vaddr / PAGE_SIZE, (ph.vaddr + ph.memsz + PAGE_SIZE - 1) / PAGE_SIZE;
    assert USER_SPACE_TOP == 0x8_0000_0000 * PAGE_SIZE;
    assert a < b <= 0x8_0000_0000;
    Multiple(b - a);
  }

  lemma PageSpan(ph: Phdr, n: nat)
    requires RangeOk(ph.vaddr, ph.memsz, USER_SPACE_TOP) && ph.memsz != 0 && n < PageCount(ph)
    ensures var page := First(ph) + n * PAGE_SIZE;
      page % PAGE_SIZE == 0 && First(ph) <= page && page + PAGE_SIZE <= Last(ph)
    ensures Last(ph) <= USER_SPACE_TOP && First(ph) < Last(ph)
  {
    hide First, Last, PageCount;
    SpanPages(ph);
    var a := ph.vaddr / PAGE_SIZE;
    assert First(ph) + n * PAGE_SIZE == (a + n) * PAGE_SIZE;
    Multiple(a + n);
  }

  /** A place outside the segment's pages is left alone. */
  lemma {:induction false} OtherPages(m: map<Path, PageView>, root: nat, f: File, ph: Phdr, n: nat, addr: nat)
    requires SegmentOk(ph, |f|) && n <= PageCount(ph) && First(ph) >= IDENTITY_TOP
    requires IDENTITY_TOP <= addr < USER_SPACE_TOP && !(First(ph) <= addr < First(ph) + n * PAGE_SIZE)
    ensures var l := PathOf(root, addr); var m' := AfterPages(m, root, f, ph, n);
      (l in m' <==> l in m) && (l in m ==> m'[l] == m[l])
  {
    hide PathOf, View;
    if n > 0 {
      var page := First(ph) + (n - 1) * PAGE_SIZE;
      PageSpan(ph, n - 1);
      OtherPages(m, root, f, ph, n - 1, addr);
      if PathOf(root, page) == PathOf(root, addr) {
        PlacesDiffer(root, page, addr);
        InPage(page, addr);
      }
    }
  }

  lemma InPage(page: nat, addr: nat)
    requires page % PAGE_SIZE == 0 && AlignDown(page) == AlignDown(addr)
    ensures page <= addr < page + PAGE_SIZE
  {}

  /** A page of the segment holds the segment's bytes and has its permissions. */
  lemma {:induction false} OwnPages(m: map<Path, PageView>, root: nat, f: File, ph: Phdr, n: nat, k: nat)
    requires SegmentOk(ph, |f|) && k < n <= PageCount(ph) && First(ph) >= IDENTITY_TOP
    ensures var page := First(ph) + k * PAGE_SIZE; var l := PathOf(root, page);
      l in AfterPages(m, root, f, ph, n) && AfterPages(m, root, f, ph, n)[l] == View(f, ph, page)
    decreases n
  {
    hide PathOf, View;
    if k < n - 1 {
      var page, last := First(ph) + k * PAGE_SIZE, First(ph) + (n - 1) * PAGE_SIZE;
      PageSpan(ph, k);
      PageSpan(ph, n - 1);
      OwnPages(m, root, f, ph, n - 1, k);
      if PathOf(root, page) == PathOf(root, last) {
        PlacesDiffer(root, page, last);
      }
    }
  }

  /** A loaded page has the bytes and the permissions of its segment. */
  lemma {:induction false} LoadedView(m: map<Path, PageView>, root: nat, f: File, n: nat, k: nat, addr: nat)
    requires HeaderOk(f) && k < n <= Count(f) && SegmentsOk(f, n) && Separate(f)
    requires Segment(f, k).kind == PT_LOAD && First(Segment(f, k)) <= addr < Last(Segment(f, k))
    ensures var ph := Segment(f, k); var l := PathOf(root, addr); var m' := AfterSegments(m, root, f, n);
      && l in m' && m'[l].bytes[addr % PAGE_SIZE] == ByteOf(f, ph, addr)
      && m'[l].writable == MayWrite(ph) && m'[l].nx == NoExec(ph)
    decreases n
  {
    hide HeaderOk, PathOf, AfterPages, ByteOf, MayWrite, NoExec, First, Last, PageCount;
    var ph := Segment(f, k);
    SpanEnds(ph);
    if k == n - 1 {
      OwnByte(AfterSegments(m, root, f, n - 1), root, f, ph, addr);
    } else {
      LoadedView(m, root, f, n - 1, k, addr);
      var other := Segment(f, n - 1);
      if other.kind == PT_LOAD {
        SpanEnds(other);
        OtherPages(AfterSegments(m, root, f, n - 1), root, f, other, PageCount(other), addr);
      }
    }
  }

  // The image as it lies in the file, byte by byte.

  /** Program header i begins here. */
  function HeaderAt(f: File, i: nat): nat
    requires |f| >= 64
  {
    Words.Eight(f, 32) + 56 * i
  }

  /** The fields of the file header and of program header i, at the offsets of the format. */
  lemma Fields(f: File, i: nat)
    requires HeaderOk(f) && i < Count(f)
    ensures Entry(f) == Words.Eight(f, 24) && Count(f) == Words.Two(f, 56)
    ensures var at, ph := HeaderAt(f, i), Segment(f, i);
      && at + 56 <= |f|
      && ph.kind == Words.Four(f, at) && ph.flags == Words.Four(f, at + 4)
      && ph.offset == Words.Eight(f, at + 8) && ph.vaddr == Words.Eight(f, at + 16)
      && ph.filesz == Words.Eight(f, at + 32) && ph.memsz == Words.Eight(f, at + 40)
      && ph.align == Words.Eight(f, at + 48)
  {
    hide Words.WordAt, Words.Two, Words.Four, Words.Eight;
    Words.WordIs(f, 24);
    Words.WordIs(f, 32);
    Words.WordIs(f, 54);
    Words.WordIs(f, 56);
    var at := HeaderAt(f, i);
    Words.WordIs(f, at);
    Words.WordIs(f, at + 4);
    Words.WordIs(f, at + 8);
    Words.WordIs(f, at + 16);
    Words.WordIs(f, at + 32);
    Words.WordIs(f, at + 40);
    Words.WordIs(f, at + 48);
  }

  /** PF_X, PF_W and PF_R are 1, 2 and 4. */
  lemma Permissions(f: File, i: nat)
    requires HeaderOk(f) && i < Count(f)
    ensures HeaderAt(f, i) + 56 <= |f|
    ensures MayWrite(Segment(f, i)) <==> f[HeaderAt(f, i) + 4] % 8 in {2, 3, 6, 7}
    ensures NoExec(Segment(f, i)) <==> f[HeaderAt(f, i) + 4] % 8 in {0, 2, 4, 6}
  {
    hide HeaderOk, Segment, Words.Two, Words.Eight;
    CountIs(f);
    Fields(f, i);
    var low := f[HeaderAt(f, i) + 4] as int;
    assert Segment(f, i).flags % 256 == low;
    assert Segment(f, i).flags % 8 == low % 8;
  }

  /** The header, field by field: a little-endian ELF64 executable for this machine
      whose program headers lie in the file. */
  predicate HeaderBytes(f: File)
  {
    && |f| >= 64 && f[..6] == [0x7f, 0x45, 0x4c, 0x46, 2, 1]
    && Words.Two(f, 16) == 2 && Words.Two(f, 18) == 62 && Words.Four(f, 20) == 1
    && Words.Two(f, 52) == 64 && Words.Two(f, 54) == 56 && 1 <= Words.Two(f, 56) <= 32
    && HeaderAt(f, Words.Two(f, 56)) <= |f|
    && 0 < Words.Eight(f, 24) < 0x8000_0000_0000
  }

  predicate IsLoad(f: File, i: nat)
    requires |f| >= 64
  {
    HeaderAt(f, i) + 56 <= |f| && Words.Four(f, HeaderAt(f, i)) == 1
  }

  /** A loadable segment lies in the file and in user space, and its file part in its memory. */
  predicate LoadOk(f: File, i: nat)
    requires |f| >= 64 && IsLoad(f, i)
  {
    var at := HeaderAt(f, i);
    var offset, vaddr := Words.Eight(f, at + 8), Words.Eight(f, at + 16);
    var filesz, memsz, align := Words.Eight(f, at + 32), Words.Eight(f, at + 40), Words.Eight(f, at + 48);
    && filesz <= memsz && memsz > 0 && offset + filesz <= |f| && vaddr + memsz <= 0x8000_0000_0000
    && (align == 0 || align == 4096)
  }

  lemma HeaderIs(f: File)
    ensures HeaderOk(f) <==> HeaderBytes(f)
  {
    hide Words.WordAt, Words.Two, Words.Four, Words.Eight;
    if |f| >= 64 {
      Words.WordIs(f, 16);
      Words.WordIs(f, 18);
      Words.WordIs(f, 20);
      Words.WordIs(f, 24);
      Words.WordIs(f, 32);
      Words.WordIs(f, 52);
      Words.WordIs(f, 54);
      Words.WordIs(f, 56);
      assert forall i :: 0 <= i < 6 ==> f[..6][i] == f[i];
      assert f[..6] == [f[0], f[1], f[2], f[3], f[4], f[5]];
    }
  }

  lemma LoadIs(f: File, i: nat)
    requires HeaderOk(f) && HeaderBytes(f) && i < Count(f)
    ensures Segment(f, i).kind == PT_LOAD <==> IsLoad(f, i)
    ensures IsLoad(f, i) ==> (SegmentOk(Segment(f, i), |f|) <==> LoadOk(f, i))
  {
    hide HeaderOk, Segment, Words.Two, Words.Four, Words.Eight;
    Fields(f, i);
  }

  /** What is accepted, in terms of the bytes of the file. */
  lemma AcceptedIs(f: File)
    ensures Accepted(f) <==>
      && HeaderBytes(f)
      && (forall i :: 0 <= i < Words.Two(f, 56) && IsLoad(f, i) ==> LoadOk(f, i))
      && exists i :: 0 <= i < Words.Two(f, 56) && IsLoad(f, i)
  {
    hide HeaderOk, HeaderBytes, Segment, SegmentOk, IsLoad, LoadOk;
    HeaderIs(f);
    if HeaderOk(f) {
      CountIs(f);
      forall i: nat | i < Count(f)
        ensures Segment(f, i).kind == PT_LOAD <==> IsLoad(f, i)
        ensures IsLoad(f, i) ==> (SegmentOk(Segment(f, i), |f|) <==> LoadOk(f, i))
      {
        LoadIs(f, i);
      }
    }
  }

  lemma CountIs(f: File)
    requires HeaderOk(f)
    ensures |f| >= 64 && Count(f) == Words.Two(f, 56) && Entry(f) == Words.Eight(f, 24)
  {
    Words.WordIs(f, 56);
    Words.WordIs(f, 24);
  }

  /** The byte at addr that program header i asks for: from the file, or zero. */
  function FileByte(f: File, i: nat, addr: nat): byte
    requires |f| >= 64 && IsLoad(f, i) && LoadOk(f, i)
  {
    var at := HeaderAt(f, i);
    var offset, vaddr, filesz := Words.Eight(f, at + 8), Words.Eight(f, at + 16), Words.Eight(f, at + 32);
    if vaddr <= addr < vaddr + filesz then f[offset + (addr - vaddr)] else 0
  }

  /** Address addr lies in a page that program header i reaches into. */
  predicate InPages(f: File, i: nat, addr: nat)
    requires |f| >= 64 && HeaderAt(f, i) + 56 <= |f|
  {
    var vaddr, memsz := Words.Eight(f, HeaderAt(f, i) + 16), Words.Eight(f, HeaderAt(f, i) + 40);
    memsz > 0 && vaddr / 4096 <= addr / 4096 <= (vaddr + memsz - 1) / 4096
  }

  lemma PagesAre(f: File, i: nat, addr: nat)
    requires HeaderOk(f) && i < Count(f)
    ensures HeaderAt(f, i) + 56 <= |f|
    ensures SegmentOk(Segment(f, i), |f|) ==>
      (InPages(f, i, addr) <==> First(Segment(f, i)) <= addr < Last(Segment(f, i)))
  {
    hide HeaderOk, Segment, Words.Two, Words.Four, Words.Eight;
    Fields(f, i);
  }

  /** Every byte of a loaded page is its file byte inside the file part of the segment
      and zero elsewhere, and the permissions are the PF_W and PF_X bits of its header. */
  lemma LoadedByte(m: map<Path, PageView>, root: nat, f: File, k: nat, addr: nat)
    requires Accepted(f) && Separate(f) && k < Count(f) && IsLoad(f, k) && InPages(f, k, addr)
    ensures LoadOk(f, k) && var l := PathOf(root, addr); var m' := AfterSegments(m, root, f, Count(f));
      && l in m' && m'[l].bytes[addr % PAGE_SIZE] == FileByte(f, k, addr)
      && (m'[l].writable <==> f[HeaderAt(f, k) + 4] % 8 in {2, 3, 6, 7})
      && (m'[l].nx <==> f[HeaderAt(f, k) + 4] % 8 in {0, 2, 4, 6})
  {
    hide HeaderOk, HeaderBytes, Segment, PathOf, AfterSegments, MayWrite, NoExec, First, Last, Separate;
    hide Words.Two, Words.Four, Words.Eight;
    HeaderIs(f);
    LoadIs(f, k);
    Fields(f, k);
    PagesAre(f, k, addr);
    LoadedView(m, root, f, Count(f), k, addr);
    Permissions(f, k);
  }

  lemma OwnByte(m: map<Path, PageView>, root: nat, f: File, ph: Phdr, addr: nat)
    requires SegmentOk(ph, |f|) && First(ph) >= IDENTITY_TOP && First(ph) <= addr < Last(ph)
    ensures var l := PathOf(root, addr); var m' := AfterPages(m, root, f, ph, PageCount(ph));
      && l in m' && m'[l].bytes[addr % PAGE_SIZE] == ByteOf(f, ph, addr)
      && m'[l].writable == MayWrite(ph) && m'[l].nx == NoExec(ph)
  {
    hide PathOf, AfterPages, ByteOf, MayWrite, NoExec, First, Last, PageCount;
    var i := (addr - First(ph)) / PAGE_SIZE;
    var page := First(ph) + i * PAGE_SIZE;
    PageOfAddr(ph, addr);
    OwnPages(m, root, f, ph, PageCount(ph), i);
    SamePage(root, addr);
    assert FillPage(f, ph, page)[addr % PAGE_SIZE] == ByteOf(f, ph, page + addr % PAGE_SIZE);
  }

  lemma SpanEnds(ph: Phdr)
    requires RangeOk(ph.vaddr, ph.memsz, USER_SPACE_TOP) && ph.memsz != 0
    ensures First(ph) < Last(ph) <= USER_SPACE_TOP && First(ph) + PageCount(ph) * PAGE_SIZE == Last(ph)
    ensures First(ph) <= ph.vaddr && ph.vaddr + ph.memsz <= Last(ph) && Last(ph) % PAGE_SIZE == 0
  {
    hide First, Last, PageCount;
    SpanPages(ph);
    Multiple((ph.vaddr + ph.memsz + PAGE_SIZE - 1) / PAGE_SIZE);
  }

  lemma PageOfAddr(ph: Phdr, addr: nat)
    requires First(ph) <= addr < Last(ph)
    ensures var i := (addr - First(ph)) / PAGE_SIZE;
      && i < PageCount(ph) && First(ph) + i * PAGE_SIZE == AlignDown(addr)
      && First(ph) + i * PAGE_SIZE + addr % PAGE_SIZE == addr
  {}

  /** Outside the pages of the segments nothing changes. */
  lemma {:induction false} NotLoaded(m: map<Path, PageView>, root: nat, f: File, n: nat, addr: nat)
    requires HeaderOk(f) && n <= Count(f) && SegmentsOk(f, n) && Separate(f) && IDENTITY_TOP <= addr < USER_SPACE_TOP
    requires forall i :: 0 <= i < n && Segment(f, i).kind == PT_LOAD ==>
      !(First(Segment(f, i)) <= addr < Last(Segment(f, i)))
    ensures var l := PathOf(root, addr); var m' := AfterSegments(m, root, f, n);
      (l in m' <==> l in m) && (l in m ==> m'[l] == m[l])
  {
    hide HeaderOk, PathOf, AfterPages;
    if n > 0 {
      NotLoaded(m, root, f, n - 1, addr);
      var ph := Segment(f, n - 1);
      if ph.kind == PT_LOAD {
        SpanEnds(ph);
        OtherPages(AfterSegments(m, root, f, n - 1), root, f, ph, PageCount(ph), addr);
      }
    }
  }

  method MapSegmentPage(v: PageTables, root: nat, f: File, ph: Phdr, page: nat) returns (ok: bool)
    requires v.Valid(None) && v.SpacesOk() && root in v.spaces && SegmentOk(ph, |f|)
    requires IDENTITY_TOP <= page < USER_SPACE_TOP && page % PAGE_SIZE == 0 && PathOf(root, page) !in Pages(v.sys)
    modifies v`mem, v`sys, v.pmm, v.pmm.bitmap, v.pmm.refcount
    ensures v.Valid(None) && v.SpacesOk() && OnlySpace(old(v.sys), v.sys, root)
    ensures Pages(v.sys) == if ok then Pages(old(v.sys))[PathOf(root, page) := View(f, ph, page)] else Pages(old(v.sys))
    ensures |old(v.sys.free)| <= |v.sys.free| + 4 && (!ok ==> |v.sys.free| <= 1)
  {
    hide Inv, Kept, Sound, PathOf, TreeGrown, FillPage, OnlySpace;
    UserIsPrivate(root, page);
    ok := v.MapFilledPage(root, page, FillPage(f, ph, page), MayWrite(ph), NoExec(ph));
    SpacesMapped(old(v.sys), v.sys, v.spaces, v.cur, PathOf(root, page));
    OnlyMapped(old(v.sys), v.sys, PathOf(root, page), root);
    if ok {
      MappedPages(old(v.sys), v.sys, PathOf(root, page), View(f, ph, page));
    } else {
      SamePages(old(v.sys), v.sys);
    }
  }

  /** No page of the segment is mapped yet. */
  ghost predicate Clear(m: map<Path, PageView>, root: nat, ph: Phdr)
  {
    forall addr: nat {:trigger PathOf(root, addr)} :: First(ph) <= addr < Last(ph) ==> PathOf(root, addr) !in m
  }

  method LoadSegment(v: PageTables, root: nat, f: File, ph: Phdr) returns (ok: bool)
    requires v.Valid(None) && v.SpacesOk() && root in v.spaces && SegmentOk(ph, |f|) && First(ph) >= IDENTITY_TOP
    requires Clear(Pages(v.sys), root, ph)
    modifies v`mem, v`sys, v.pmm, v.pmm.bitmap, v.pmm.refcount
    ensures v.Valid(None) && v.SpacesOk() && OnlySpace(old(v.sys), v.sys, root)
    ensures ok ==> Pages(v.sys) == AfterPages(Pages(old(v.sys)), root, f, ph, PageCount(ph))
    ensures |old(v.sys.free)| <= |v.sys.free| + 4 * PageCount(ph) && (!ok ==> |v.sys.free| <= 1)
  {
    hide Inv, OnlySpace, Sound, SpacesIn, PathOf, Pages, View, First, Last, PageCount, RangeOk;
    ghost var m, n := Pages(v.sys), 0;
    OnlySame(v.sys, root);
    SegmentSpan(ph, |f|);
    var page, last := First(ph), Last(ph);
    while page < last
      invariant v.Valid(None) && v.SpacesOk() && OnlySpace(old(v.sys), v.sys, root) && root in v.spaces
      invariant page == First(ph) + n * PAGE_SIZE && n <= PageCount(ph) && Pages(v.sys) == AfterPages(m, root, f, ph, n)
      invariant |old(v.sys.free)| <= |v.sys.free| + 4 * n
      decreases last - page
    {
      ghost var s1 := v.sys;
      NextPage(ph, |f|, n);
      OtherPages(m, root, f, ph, n, page);
      ok := MapSegmentPage(v, root, f, ph, page);
      OnlyTrans(old(v.sys), s1, v.sys, root);
      if !ok {
        return;
      }
      page, n := page + PAGE_SIZE, n + 1;
    }
    ok := true;
  }

  lemma SegmentSpan(ph: Phdr, size: nat)
    requires SegmentOk(ph, size)
    ensures First(ph) + PageCount(ph) * PAGE_SIZE == Last(ph) <= USER_SPACE_TOP && First(ph) < Last(ph)
  {
    SpanEnds(ph);
  }

  lemma NextPage(ph: Phdr, size: nat, n: nat)
    requires SegmentOk(ph, size) && First(ph) + n * PAGE_SIZE < Last(ph)
    ensures n < PageCount(ph) && (First(ph) + n * PAGE_SIZE) % PAGE_SIZE == 0
  {
    hide First, Last, PageCount;
    SpanPages(ph);
    PageSpan(ph, n);
  }

  /** The image passes every check of the loader. */
  predicate Accepted(f: File)
  {
    HeaderOk(f) && SegmentsOk(f, Count(f)) && SomeLoad(f, Count(f))
  }

  /** highest is the end of the highest of the first n segments. */
  ghost predicate EndsAt(f: File, n: nat, highest: nat)
    requires HeaderOk(f) && n <= Count(f)
  {
    && (forall i :: 0 <= i < n && Segment(f, i).kind == PT_LOAD ==>
          Segment(f, i).vaddr + Segment(f, i).memsz <= highest)
    && (highest == 0 || exists i ::
          0 <= i < n && Segment(f, i).kind == PT_LOAD && Segment(f, i).vaddr + Segment(f, i).memsz == highest)
  }

  /** brk is the least page-aligned address at or above the end of every loadable segment. */
  ghost predicate IsBreak(f: File, brk: nat)
    requires HeaderOk(f)
  {
    && brk % 4096 == 0
    && (forall i :: 0 <= i < Count(f) && Segment(f, i).kind == PT_LOAD ==>
          Segment(f, i).vaddr + Segment(f, i).memsz <= brk)
    && exists i :: 0 <= i < Count(f) && Segment(f, i).kind == PT_LOAD
         && brk < Segment(f, i).vaddr + Segment(f, i).memsz + 4096
  }

  lemma BreakIs(f: File, highest: nat)
    requires Accepted(f) && EndsAt(f, Count(f), highest)
    ensures IsBreak(f, AlignUp(highest))
  {
    hide HeaderOk, Segment;
  }

  /** How many pages the first n segments take. */
  function PagesTo(f: File, n: nat): nat
    requires HeaderOk(f) && n <= Count(f)
  {
    if n == 0 then 0
    else PagesTo(f, n - 1) + if Segment(f, n - 1).kind == PT_LOAD then PageCount(Segment(f, n - 1)) else 0
  }

  function PagesIn(f: File): nat
  {
    if HeaderOk(f) then PagesTo(f, Count(f)) else 0
  }

  lemma {:induction false} PagesToGrow(f: File, i: nat, n: nat)
    requires HeaderOk(f) && i <= n <= Count(f)
    ensures PagesTo(f, i) <= PagesTo(f, n)
  {
    hide HeaderOk, Segment, PageCount;
    if i < n { PagesToGrow(f, i, n - 1); }
  }

  datatype Image = Image(entry: nat, brkBase: nat)

  /** Loads an image into a space without user pages. */
  method LoadUserImage(v: PageTables, root: nat, f: File) returns (r: Option<Image>)
    requires v.Valid(None) && v.SpacesOk() && root in v.spaces && (HeaderOk(f) ==> Separate(f))
    requires forall l :: l in Pages(v.sys) ==> SpaceOf(l) != Private(root)
    modifies v`mem, v`sys, v.pmm, v.pmm.bitmap, v.pmm.refcount
    ensures v.Valid(None) && v.SpacesOk() && OnlySpace(old(v.sys), v.sys, root)
    ensures r.Some? ==>
      && Accepted(f) && Pages(v.sys) == AfterSegments(Pages(old(v.sys)), root, f, Count(f))
      && r.value.entry == Words.Eight(f, 24) && IsBreak(f, r.value.brkBase)
    ensures |old(v.sys.free)| <= |v.sys.free| + 4 * PagesIn(f)
    ensures r.None? ==> !Accepted(f) || |v.sys.free| <= 1
  {
    hide Inv, OnlySpace, Sound, SpacesIn, PathOf, Pages, Separate, Segment, Entry, AfterPages, SegmentOk, First;
    hide Last, PageCount, IsBreak, Words.Eight;
    OnlySame(v.sys, root);
    if !HeaderOk(f) {
      return None;
    }
    PagesToGrow(f, 0, Count(f));
    ghost var m := Pages(v.sys);
    var highest: nat, sawLoad := 0, false;
    for i := 0 to Count(f)
      invariant v.Valid(None) && v.SpacesOk() && OnlySpace(old(v.sys), v.sys, root) && root in v.spaces
      invariant SegmentsOk(f, i) && Pages(v.sys) == AfterSegments(m, root, f, i)
      invariant EndsAt(f, i, highest) && (sawLoad <==> SomeLoad(f, i))
      invariant |old(v.sys.free)| <= |v.sys.free| + 4 * PagesTo(f, i)
    {
      var ph := Segment(f, i);
      PagesToGrow(f, i, Count(f));
      PagesToGrow(f, i + 1, Count(f));
      if ph.kind == PT_LOAD {
        if !SegmentOk(ph, |f|) {
          return None;
        }
        ghost var s1 := v.sys;
        SegmentClear(m, root, f, i);
        var ok := LoadSegment(v, root, f, ph);
        OnlyTrans(old(v.sys), s1, v.sys, root);
        if !ok {
          return None;
        }
        if ph.vaddr + ph.memsz > highest {
          highest := ph.vaddr + ph.memsz;
        }
        sawLoad := true;
      }
    }
    if !sawLoad {
      return None;
    }
    CountIs(f);
    BreakIs(f, highest);
    return Some(Image(Entry(f), AlignUp(highest)));
  }

  /** Before a segment is loaded its pages are clear. */
  lemma SegmentClear(m: map<Path, PageView>, root: nat, f: File, i: nat)
    requires HeaderOk(f) && i < Count(f) && SegmentsOk(f, i) && Separate(f)
    requires Segment(f, i).kind == PT_LOAD && SegmentOk(Segment(f, i), |f|)
    requires forall l :: l in m ==> SpaceOf(l) != Private(root)
    ensures Clear(AfterSegments(m, root, f, i), root, Segment(f, i)) && First(Segment(f, i)) >= IDENTITY_TOP
  {
    hide HeaderOk, PathOf, AfterSegments, First, Last;
    var ph := Segment(f, i);
    SpanEnds(ph);
    forall addr: nat | First(ph) <= addr < Last(ph) ensures PathOf(root, addr) !in AfterSegments(m, root, f, i) {
      UserIsPrivate(root, addr);
      NotLoaded(m, root, f, i, addr);
    }
  }
}
