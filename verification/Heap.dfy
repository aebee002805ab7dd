/** The kernel heap: small requests from slabs, large ones from pages of their
    own. Free slots are linked through memory that clients held and will hold. */
module KernelHeap {
  import opened Wrappers
  import opened HeapLayout

  /** What the frame allocator and the page tables will give one request: how many
      frames, how many mappings, and what the new pages happen to hold. */
  datatype Backing = Backing(frames: nat, maps: nat, stale: nat -> nat)

  /** How many pages a large request takes. */
  function PagesFor(size: nat): nat
  {
    (size + 16 + PAGE_SIZE - 1) / PAGE_SIZE
  }

  lemma PagesEnough(size: nat)
    requires 1024 < size < 0x1_0000_0000
    ensures 1 <= PagesFor(size) <= 0x10_0001 && size <= Room(PagesFor(size))
    ensures Room(PagesFor(size)) < size + PAGE_SIZE
  {}

  /** The size of the block that answers a request. */
  ghost predicate Answers(size: nat, capacity: nat)
  {
    size <= capacity &&
    if size <= 1024 then IsClass(capacity) && forall c :: 0 <= c < |SIZES| && size <= SIZES[c] ==> capacity <= SIZES[c]
    else capacity < size + PAGE_SIZE
  }

  /** Is there a slab of this slot size with a free slot? */
  ghost predicate HasRoom(s: State, size: nat)
  {
    exists p :: p in s.slabs && s.slabs[p].size == size && |s.slabs[p].free| > 0
  }

  /** Free slots come and go in the one class only. */
  ghost predicate OtherRooms(s: State, s': State, size: nat)
  {
    forall k :: k != size ==> (HasRoom(s', k) <==> HasRoom(s, k))
  }

  lemma SlabRooms(s: State, s': State, p: nat, size: nat)
    requires forall q :: q in s.slabs && q != p ==> q in s'.slabs && s'.slabs[q] == s.slabs[q]
    requires forall q :: q in s'.slabs && q != p ==> q in s.slabs
    requires p in s'.slabs && s'.slabs[p].size == size && (p in s.slabs ==> s.slabs[p].size == size)
    ensures OtherRooms(s, s', size)
  {}

  lemma FreshRoom(r: nat, c: nat)
    requires c < |SIZES|
    ensures FreshSlab(r, c).size == SIZES[c] && |FreshSlab(r, c).free| > 0
  {}

  lemma SameRooms(s: State, s': State, size: nat)
    requires s'.slabs == s.slabs
    ensures OtherRooms(s, s', size)
  {}

  /** A request of another class is served as before. */
  lemma ServedAlike(s: State, s': State, taken: nat, size: nat, backing: Backing)
    requires OtherRooms(s, s', taken) && taken < size
    ensures Servable(s', size, backing) <==> Servable(s, size, backing)
  {}

  lemma RoomsTwice(a: State, b: State, c: State, size: nat)
    requires (a == b || OtherRooms(a, b, size)) && OtherRooms(b, c, size)
    ensures OtherRooms(a, c, size)
  {}

  /** When a request can be met. */
  ghost predicate Servable(s: State, size: nat, backing: Backing)
  {
    if size <= 1024 then
      (exists k :: Answers(size, k) && HasRoom(s, k)) || (backing.frames > 0 && backing.maps > 0)
    else
      PagesFor(size) <= backing.frames && PagesFor(size) <= backing.maps
  }

  /** The class found answers, and only its slot size does. */
  lemma ClassAnswers(size: nat, c: nat)
    requires c < |SIZES| && size <= SIZES[c] && forall d :: 0 <= d < c ==> SIZES[d] < size
    ensures Answers(size, SIZES[c]) && forall k :: Answers(size, k) ==> k == SIZES[c]
  {
    assert SIZES[0] < SIZES[1] < SIZES[2] < SIZES[3] < SIZES[4] < SIZES[5] < SIZES[6] == 1024;
    forall k | Answers(size, k) ensures k == SIZES[c] {
      assert exists d :: 0 <= d < |SIZES| && SIZES[d] == k;
    }
  }

  /** Which class serves a request, -1 for none. */
  method SizeToClass(size: nat) returns (c: int)
    ensures size <= 1024 ==> 0 <= c < |SIZES| && size <= SIZES[c] && forall d :: 0 <= d < c ==> SIZES[d] < size
    ensures size > 1024 ==> c == -1
  {
    for i := 0 to |SIZES|
      invariant forall d :: 0 <= d < i ==> SIZES[d] < size
    {
      if size <= SIZES[i] {
        return i;
      }
    }
    assert SIZES[6] < size;
    return -1;
  }

  /** A page of memory, with whatever it holds. */
  function Backed(mem: Memory, p: nat, stale: nat -> nat): Memory
  {
    mem + map x | p <= x < p + PAGE_SIZE && x % 8 == 0 :: stale(x)
  }

  /** The free list of a fresh slab, up to slot n. */
  ghost predicate Threaded(mem: Memory, p: nat, size: nat, n: nat)
  {
    forall k: nat {:trigger Slot(p, size, k)} :: k < n ==>
      Slot(p, size, k) in mem && mem[Slot(p, size, k)] == Slot(p, size, k + 1)
  }

  lemma SlotThere(mem: Memory, p: nat, size: nat, i: nat)
    requires IsClass(size) && i < Slots(size) && p % PAGE_SIZE == 0 && PageIn(mem, p)
    ensures Slot(p, size, i) in mem && p + SLAB_HDR <= Slot(p, size, i) < p + PAGE_SIZE
  {
    hide IsClass, Slots, Slot, SlotAt, Base;
    SlotPlace(p, size, i);
    SlotPast(p, size, Slot(p, size, i));
  }

  /** Links slots 0 to n. */
  method Thread(mem0: Memory, p: nat, size: nat, n: nat) returns (mem: Memory)
    requires IsClass(size) && p % PAGE_SIZE == 0 && PageIn(mem0, p) && n < Slots(size)
    ensures Threaded(mem, p, size, n) && mem.Keys == mem0.Keys
    ensures forall x :: x in mem0 && !(p + SLAB_HDR <= x < p + PAGE_SIZE) ==> mem[x] == mem0[x]
  {
    hide IsClass, Slots, Slot, PageIn;
    mem := mem0;
    for i := 0 to n
      invariant mem.Keys == mem0.Keys && Threaded(mem, p, size, i)
      invariant forall x :: x in mem0 && !(p + SLAB_HDR <= x < p + PAGE_SIZE) ==> mem[x] == mem0[x]
    {
      SlotThere(mem0, p, size, i);
      forall k: nat | k < i ensures Slot(p, size, k) != Slot(p, size, i) { SlotOrder(p, size, k, i); }
      mem := mem[Slot(p, size, i) := Slot(p, size, i + 1)];
    }
  }

  /** The header of a fresh slab; the padding keeps what it held. */
  function HeaderMem(mem: Memory, p: nat, size: nat): Memory
    requires IsClass(size) && p + 8 in mem
  {
    var total := Slots(size);
    mem[p := SLAB_MAGIC + size * 0x1_0000_0000]
       [p + 8 := mem[p + 8] - mem[p + 8] % 0x1_0000_0000 + total * 0x1_0000 + total]
       [p + 24 := 0][p + 32 := 0][p + 16 := p + SLAB_HDR]
  }

  lemma HeaderReads(w: nat, size: nat)
    requires IsClass(size)
    ensures var w' := w - w % 0x1_0000_0000 + Slots(size) * 0x1_0000 + Slots(size);
      FreeCount(w') == Slots(size) && TotalCount(w') == Slots(size)
    ensures Magic(SLAB_MAGIC + size * 0x1_0000_0000) == SLAB_MAGIC
    ensures ObjSize(SLAB_MAGIC + size * 0x1_0000_0000) == size
  {
    var t, k := Slots(size), w / 0x1_0000_0000;
    assert 0 < t < 0x1_0000;
    var w' := k * 0x1_0000_0000 + t * 0x1_0000 + t;
    assert w' / 0x1_0000 == k * 0x1_0000 + t;
  }

  lemma FreshList(mem: Memory, p: nat, size: nat)
    requires IsClass(size) && p % PAGE_SIZE == 0 && PageIn(mem, p) && p + 16 in mem && mem[p + 16] == p + SLAB_HDR
    requires Threaded(mem, p, size, Slots(size) - 1)
    requires Slot(p, size, Slots(size) - 1) in mem && mem[Slot(p, size, Slots(size) - 1)] == 0
    ensures FreeListOk(mem, p, size, AllSlots(p, size))
  {
    hide IsClass, SlotAt, PageIn, Slots;
    var l := AllSlots(p, size);
    assert l[0] == p + SLAB_HDR by { SlotZero(p, size); }
    forall i, j | 0 <= i < j < |l| ensures l[i] != l[j] { SlotOrder(p, size, i, j); }
    forall k: nat | k < |l| ensures SlotAt(p, size, l[k]) && l[k] in mem && mem[l[k]] == NextRef(l, k) {
      SlotPlace(p, size, k);
      SlotThere(mem, p, size, k);
      assert l[k] == Slot(p, size, k);
    }
  }

  lemma SlotZero(p: nat, size: nat)
    requires IsClass(size)
    ensures Slots(size) > 0 && Slot(p, size, 0) == p + SLAB_HDR
  {}

  lemma HeaderThere(mem: Memory, p: nat)
    requires p % PAGE_SIZE == 0 && PageIn(mem, p)
    ensures p in mem && p + 8 in mem && p + 16 in mem && p + 24 in mem && p + 32 in mem
  {
    var q := p / PAGE_SIZE * 512;
    assert p == 8 * q;
    ModIs(p, q, 8, 0);
    ModIs(p + 8, q + 1, 8, 0);
    ModIs(p + 16, q + 2, 8, 0);
    ModIs(p + 24, q + 3, 8, 0);
    ModIs(p + 32, q + 4, 8, 0);
  }

  /** Sets up a slab on the page at p: header, and a free list through all slots. */
  method Format(mem0: Memory, p: nat, size: nat) returns (mem: Memory)
    requires IsClass(size) && p % PAGE_SIZE == 0 && p > 0 && PageIn(mem0, p)
    ensures SlabOk(mem, p, Slab(size, AllSlots(p, size))) && mem[p + 32] == 0 && mem.Keys == mem0.Keys
    ensures forall x :: x in mem0 && !(p <= x < p + PAGE_SIZE) ==> mem[x] == mem0[x]
  {
    hide IsClass, SlotAt, PageIn, Slots, FreeListOk, Threaded, Slot, Magic, ObjSize, FreeCount, TotalCount;
    HeaderThere(mem0, p);
    HeaderReads(mem0[p + 8], size);
    SlotZero(p, size);
    var hdr := HeaderMem(mem0, p, size);
    PageStays(mem0, hdr, p);
    var last := Slots(size) - 1;
    var mem1 := Thread(hdr, p, size, last);
    PageStays(mem0, mem1, p);
    SlotThere(mem1, p, size, last);
    mem := mem1[Slot(p, size, last) := 0];
    PageStays(mem0, mem, p);
    ThreadedStill(mem1, p, size, last);
    FreshList(mem, p, size);
    assert |AllSlots(p, size)| == Slots(size);
  }

  lemma ThreadedStill(mem: Memory, p: nat, size: nat, n: nat)
    requires IsClass(size) && Threaded(mem, p, size, n)
    ensures Threaded(mem[Slot(p, size, n) := 0], p, size, n)
  {
    hide IsClass, Slot;
    forall k: nat | k < n ensures Slot(p, size, k) != Slot(p, size, n) { SlotOrder(p, size, k, n); }
  }

  /** The page header tells a slab slot from a large block: a page count is never the slab magic. */
  lemma MagicTells(s: State, a: nat)
    requires HeapOk(s) && a in s.live
    ensures Base(a) in s.mem && (Magic(s.mem[Base(a)]) == SLAB_MAGIC <==> SlotLive(s.slabs, a))
    ensures SlotLive(s.slabs, a) ==> ObjSize(s.mem[Base(a)]) == s.live[a]
    ensures !SlotLive(s.slabs, a) ==>
      && a >= 16 && a - 16 == Base(a) && a - 16 in s.larges && a - 8 in s.mem
      && s.mem[a - 16] == s.larges[a - 16] && s.mem[a - 8] == CANARY && s.live[a] == Room(s.larges[a - 16])
  {
    hide Base, IsClass, SlotAt, FreeListOk, PageIn, ListsOk, FreeCount, TotalCount;
    assert Capacity(s.slabs, s.larges, a) == Some(s.live[a]);
    if SlotLive(s.slabs, a) {
      assert SlabOk(s.mem, Base(a), s.slabs[Base(a)]);
    } else {
      assert LargeOk(s.mem, a - 16, s.larges[a - 16]);
      BaseIs(a - 16, a);
    }
  }

  class Heap {
    var mem: Memory
    var heads: seq<nat>
    var next: nat
    var allocs: nat
    var frees: nat
    var slabPages: nat
    ghost var st: State

    ghost predicate Valid()
      reads this
    {
      && st.mem == mem && st.heads == heads && st.next == next && HeapOk(st)
      && allocs == frees + |st.live| && slabPages == |st.slabs|
    }

    constructor (start: nat)
      requires start % PAGE_SIZE == 0 && start > 0
      ensures Valid() && st.live == map[]
    {
      mem, heads, next := map[], [0, 0, 0, 0, 0, 0, 0], start;
      allocs, frees, slabPages := 0, 0, 0;
      st := State(map[], [0, 0, 0, 0, 0, 0, 0], start, map[], [[], [], [], [], [], [], []], map[], map[], map[]);
    }

    /** A slab with a free slot on the list of class c, NULL if there is none. */
    method FindSlab(c: nat) returns (s: nat)
      requires Valid() && c < |SIZES|
      ensures s == 0 ==> !HasRoom(st, SIZES[c])
      ensures s != 0 ==> s in st.slabs && st.slabs[s].size == SIZES[c] && |st.slabs[s].free| > 0
    {
      hide Base, IsClass, SlotAt, FreeListOk, PageIn, LargesOk, PartOk, BelowOk, LiveOk;
      ghost var l, i := st.lists[c], 0;
      assert ListOk(mem, heads[c], l, st.slabs, SIZES[c]);
      s := heads[c];
      while s != 0 && FreeCount(mem[s + 8]) == 0
        invariant 0 <= i <= |l| && s == RefAt(l, i)
        invariant forall j :: 0 <= j < i ==> |st.slabs[l[j]].free| == 0
        decreases |l| - i
      {
        assert mem[l[i] + 24] == NextRef(l, i) && SlabOk(mem, s, st.slabs[s]);
        s, i := mem[s + 24], i + 1;
      }
    }

    /** A fresh page set up as a slab, still on no list. */
    method SlabAllocPage(c: nat, backing: Backing) returns (r: nat)
      requires Valid() && c < |SIZES|
      modifies `mem, `next, `st
      ensures st.mem == mem && st.next == next && HeapOk(st) && st == old(st).(mem := mem, next := next)
      ensures Blocks(st) == old(Blocks(st))
      ensures r == 0 <==> backing.frames == 0 || backing.maps == 0
      ensures r != 0 ==> Unused(st, r) && SlabOk(mem, r, FreshSlab(r, c)) && mem[r + 32] == 0
    {
      hide IsClass, SlabOk, SlabsOk, ListsOk, LargesOk, LiveOk, PartOk, AllSlots, Blocks;
      if backing.frames == 0 {
        return 0;
      }
      r, next := next, next + PAGE_SIZE;
      if backing.maps == 0 {
        Extended(st, mem, next);
        st := st.(next := next);
        return 0;
      }
      BackedPage(st, r, backing.stale);
      mem := Backed(mem, r, backing.stale);
      ghost var backed := mem;
      ClassSize(c);
      mem := Format(mem, r, SIZES[c]);
      assert Extends(st, mem, next) by { FormattedExtends(st, backed, mem, next); }
      Extended(st, mem, next);
      st := st.(mem := mem, next := next);
    }

    /** Puts a new slab in front of its list. */
    method NewSlab(c: nat, backing: Backing) returns (r: nat)
      requires Valid() && c < |SIZES|
      modifies `mem, `heads, `next, `slabPages, `st
      ensures Valid() && Blocks(st) == old(Blocks(st)) && st.live == old(st.live)
      ensures r == 0 <==> backing.frames == 0 || backing.maps == 0
      ensures r == 0 ==> st.slabs == old(st.slabs)
      ensures r != 0 ==> r in st.slabs && st.slabs[r].size == SIZES[c] && |st.slabs[r].free| > 0
      ensures OtherRooms(old(st), st, SIZES[c])
    {
      hide IsClass, SlabOk, HeapOk, FreshSlab, Blocks, OtherRooms;
      r := SlabAllocPage(c, backing);
      SameRooms(old(st), st, SIZES[c]);
      if r == 0 {
        return;
      }
      ghost var s1 := st;
      LinkSlab(c, r);
      RoomsTwice(old(st), s1, st, SIZES[c]);
    }

    /** Puts the formatted slab at r in front of the list of its class. */
    method LinkSlab(c: nat, r: nat)
      requires st.mem == mem && st.heads == heads && st.next == next && HeapOk(st)
      requires allocs == frees + |st.live| && slabPages == |st.slabs|
      requires c < |SIZES| && Unused(st, r) && SlabOk(mem, r, FreshSlab(r, c)) && mem[r + 32] == 0
      modifies `mem, `heads, `slabPages, `st
      ensures Valid() && Blocks(st) == old(Blocks(st)) && st.live == old(st.live)
      ensures r in st.slabs && st.slabs[r].size == SIZES[c] && |st.slabs[r].free| > 0
      ensures OtherRooms(old(st), st, SIZES[c])
    {
      hide IsClass, SlabOk, HeapOk, FreshSlab, Blocks, OtherRooms, Words, ListOk, Lists.At;
      ghost var s1 := st;
      HeadOk(s1, c);
      SlabAdded(s1, r, c);
      LinkedBlocks(s1, r, heads[c]);
      LinksThere(mem, r, FreshSlab(r, c));
      mem := mem[r + 24 := heads[c]];
      if heads[c] != 0 {
        mem := mem[heads[c] + 32 := r];
      }
      assert mem == LinkedMem(s1.mem, r, heads[c]);
      heads := heads[c := r];
      slabPages := slabPages + 1;
      st := s1.(mem := mem, heads := heads, slabs := s1.slabs[r := FreshSlab(r, c)],
                lists := s1.lists[c := [r] + s1.lists[c]]);
      SameBlocks(s1, st);
      FreshRoom(r, c);
      SlabRooms(s1, st, r, SIZES[c]);
    }

    /** Takes the first free slot of the slab at s. */
    method TakeSlot(s: nat) returns (r: nat)
      requires Valid() && s in st.slabs && |st.slabs[s].free| > 0
      modifies `mem, `allocs, `st
      ensures Valid() && r != 0 && r !in old(st.live) && st.live == old(st.live)[r := old(st).slabs[s].size]
      ensures Blocks(st) == old(Blocks(st))[r := Blocks(st)[r]]
      ensures OtherRooms(old(st), st, old(st).slabs[s].size)
    {
      hide IsClass, SlabOk, HeapOk;
      Taken(st, s);
      TakenBlocks(st, s);
      ghost var s0, sl := st, st.slabs[s];
      r := mem[s + 16];
      mem := mem[s + 16 := Get(mem, r)];
      mem := mem[s + 8 := WithFreeCount(mem[s + 8], FreeCount(mem[s + 8]) + 0xFFFF)];
      allocs := allocs + 1;
      st := st.(mem := mem, slabs := st.slabs[s := sl.(free := sl.free[1..])], live := st.live[r := sl.size]);
      MoreBlocks(s0, st, r, sl.size);
      SlabRooms(s0, st, s, sl.size);
    }

    method SlabAlloc(size: nat, backing: Backing) returns (r: nat)
      requires Valid() && 16 <= size <= 1024
      modifies this
      ensures Valid() && (r == 0 <==> !Servable(old(st), size, backing))
      ensures r == 0 ==> st.live == old(st.live) && Blocks(st) == old(Blocks(st)) && st.slabs == old(st.slabs)
      ensures r != 0 ==>
        && r !in old(st.live) && r in st.live && st.live == old(st.live)[r := st.live[r]] && Answers(size, st.live[r])
        && Blocks(st) == old(Blocks(st))[r := Blocks(st)[r]] && OtherRooms(old(st), st, st.live[r])
    {
      hide HeapOk, Blocks, IsClass, Answers, HasRoom;
      ghost var s0 := st;
      var c := SizeToClass(size);
      ClassAnswers(size, c);
      var s := FindSlab(c);
      if s == 0 {
        s := NewSlab(c, backing);
        if s == 0 {
          return 0;
        }
      } else {
        assert HasRoom(st, SIZES[c]) by { RoomAt(st, s); }
      }
      ghost var s1 := st;
      r := TakeSlot(s);
      RoomsTwice(s0, s1, st, SIZES[c]);
    }

    /** Backs n pages from b on, as far as backing goes; what was backed stays. */
    method MapPages(b: nat, n: nat, backing: Backing) returns (ok: bool)
      requires HeapOk(st) && st.mem == mem && st.next == b && b % PAGE_SIZE == 0
      modifies `mem
      ensures Extends(st, mem, b + n * PAGE_SIZE) && (ok <==> n <= backing.frames && n <= backing.maps)
      ensures ok ==> PagesThere(mem, b, n)
    {
      hide HeapOk, Extends, PagesThere, Backed;
      PagesStart(st, mem, b, n);
      for i := 0 to n
        invariant Extends(st, mem, b + n * PAGE_SIZE) && PagesThere(mem, b, i)
        invariant i <= backing.frames && i <= backing.maps
      {
        if backing.frames <= i || backing.maps <= i {
          return false;
        }
        PagesNext(st, mem, b, n, i, backing.stale);
        mem := Backed(mem, b + i * PAGE_SIZE, backing.stale);
      }
      ok := true;
    }

    method LargeAlloc(size: nat, backing: Backing) returns (r: nat)
      requires Valid() && 1024 < size < 0x1_0000_0000
      modifies `mem, `next, `allocs, `st
      ensures Valid() && (r == 0 <==> !Servable(old(st), size, backing))
      ensures r == 0 ==> st.live == old(st.live) && Blocks(st) == old(Blocks(st)) && st.slabs == old(st.slabs)
      ensures r != 0 ==>
        && r !in old(st.live) && r in st.live && st.live == old(st.live)[r := st.live[r]] && Answers(size, st.live[r])
        && Blocks(st) == old(Blocks(st))[r := Blocks(st)[r]] && OtherRooms(old(st), st, st.live[r])
    {
      hide HeapOk, Blocks, IsClass, Extends, PagesThere, PagesFor, LargeOk;
      ghost var s0 := st;
      NextOk(s0);
      var n, b := PagesFor(size), next;
      PagesEnough(size);
      next := next + n * PAGE_SIZE;
      var ok := MapPages(b, n, backing);
      if !ok {
        Extended(s0, mem, next);
        st := s0.(mem := mem, next := next);
        return 0;
      }
      ExtendsHeader(s0, mem, next, b, n);
      mem := mem[b := n][b + 8 := CANARY];
      Extended(s0, mem, next);
      ghost var s1 := s0.(mem := mem, next := next);
      FreshEnds(s0, s1, b);
      LargeAdded(s1, b, n);
      allocs := allocs + 1;
      r := b + 16;
      st := s1.(larges := s1.larges[b := n], part := PartWith(s1.part, b, n), live := s1.live[r := Room(n)]);
      MoreBlocks(s1, st, r, Room(n));
    }

    /** A block of at least size bytes, or NULL. */
    method KMalloc(size: nat, backing: Backing) returns (r: nat)
      requires Valid() && size < 0x1_0000_0000
      modifies this
      ensures Valid() && (r == 0 <==> size == 0 || !Servable(old(st), size, backing))
      ensures r == 0 ==> st.live == old(st.live) && Blocks(st) == old(Blocks(st)) && st.slabs == old(st.slabs)
      ensures r != 0 ==>
        && r !in old(st.live) && r in st.live && st.live == old(st.live)[r := st.live[r]] && Answers(size, st.live[r])
        && Blocks(st) == old(Blocks(st))[r := Blocks(st)[r]] && OtherRooms(old(st), st, st.live[r])
    {
      hide HeapOk, Blocks, IsClass, Answers, OtherRooms;
      if size == 0 {
        return 0;
      }
      var rounded := if size < 16 then 16 else size;
      if rounded <= 1024 {
        RoundedAnswers(size);
        r := SlabAlloc(rounded, backing);
      } else {
        r := LargeAlloc(rounded, backing);
      }
    }

    /** Puts the slot at ptr in front of the free list of the slab at s. */
    method PushFree(s: nat, ptr: nat)
      requires s + 8 in mem && s + 16 in mem && ptr != s + 8 && ptr != s + 16
      modifies `mem
      ensures mem == GivenMem(old(mem), s, ptr)
    {
      mem := mem[ptr := mem[s + 16]];
      mem := mem[s + 16 := ptr];
      mem := mem[s + 8 := WithFreeCount(mem[s + 8], FreeCount(mem[s + 8]) + 1)];
    }

    method FreeSlot(ptr: nat)
      requires Valid() && ptr in st.live && SlotLive(st.slabs, ptr)
      modifies `mem, `frees, `st
      ensures Valid() && st.live == old(st.live) - {ptr} && Blocks(st) == old(Blocks(st)) - {ptr}
    {
      hide HeapOk, Blocks, SlotLive, Base, GivenMem, Words, SlabOk;
      SlotApart(st, ptr);
      ghost var s0, sl := st, st.slabs[Base(ptr)];
      var s := Base(ptr);
      Given(st, ptr);
      BlockAligned(st, ptr);
      GivenBlocks(st, s, ptr);
      PushFree(s, ptr);
      frees := frees + 1;
      st := st.(mem := mem, slabs := st.slabs[s := sl.(free := [ptr] + sl.free)], live := st.live - {ptr});
      FewerBlocks(s0, st, ptr);
    }

    method UnmapPages(b: nat, n: nat)
      modifies `mem
      ensures mem == Unmapped(old(mem), b, n)
    {
      hide Unmapped, WithoutPage;
      UnmappedNone(mem, b);
      for i := 0 to n
        invariant mem == Unmapped(old(mem), b, i)
      {
        UnmappedStep(old(mem), b, i);
        mem := WithoutPage(mem, b + i * PAGE_SIZE);
      }
    }

    method FreeLarge(ptr: nat)
      requires Valid() && ptr in st.live && !SlotLive(st.slabs, ptr)
      modifies `mem, `frees, `st
      ensures Valid() && st.live == old(st.live) - {ptr} && Blocks(st) == old(Blocks(st)) - {ptr}
    {
      hide HeapOk, Blocks, SlotLive, Base, Unmapped, PartWithout, Words;
      MagicTells(st, ptr);
      ghost var s0 := st;
      var b := ptr - 16;
      LargeRemoved(st, b);
      RemovedBlocks(st, b);
      assert mem[b + 8] == CANARY;
      UnmapPages(b, mem[b]);
      frees := frees + 1;
      st := s0.(mem := mem, larges := s0.larges - {b}, part := PartWithout(s0.part, b), live := s0.live - {ptr});
      FewerBlocks(s0, st, ptr);
    }

    /** Takes a live block back; the page header says which kind it is. */
    method KFree(ptr: nat)
      requires Valid() && (ptr == 0 || ptr in st.live)
      modifies `mem, `frees, `st
      ensures Valid() && st.live == old(st.live) - {ptr} && Blocks(st) == old(Blocks(st)) - {ptr}
    {
      hide HeapOk, Blocks, SlotLive;
      if ptr == 0 {
        NoNull(st);
        return;
      }
      MagicTells(st, ptr);
      if Magic(mem[Base(ptr)]) == SLAB_MAGIC {
        FreeSlot(ptr);
      } else {
        FreeLarge(ptr);
      }
    }

    /** A client's store to word i of a block it holds. */
    method Store(ptr: nat, i: nat, w: nat)
      requires Valid() && ptr in st.live && i < st.live[ptr] / 8
      modifies `mem, `st
      ensures Valid() && st.live == old(st.live)
      ensures Blocks(st) == old(Blocks(st))[ptr := Put(old(Blocks(st))[ptr], i, w)]
      ensures st == old(st).(mem := mem)
    {
      hide HeapOk, Blocks;
      WordThere(st, ptr, i);
      PokedBlocks(st, ptr, i, w);
      Poked(st, ptr, ptr + 8 * i, w);
      mem := mem[ptr + 8 * i := w];
      st := st.(mem := mem);
    }

    /** Copies the first n words of one block into another. */
    method CopyWords(dst: nat, src: nat, n: nat)
      requires Valid() && src in st.live && dst in st.live && src != dst
      requires n <= st.live[src] / 8 && n <= st.live[dst] / 8
      modifies `mem, `st
      ensures Valid() && st.live == old(st.live)
      ensures Blocks(st) == old(Blocks(st))[dst := old(Blocks(st))[src][..n] + old(Blocks(st))[dst][n..]]
    {
      hide HeapOk, Blocks;
      ghost var was := Blocks(st);
      BlockLength(st, src);
      BlockLength(st, dst);
      assert was[src][..0] + was[dst][0..] == was[dst];
      for i := 0 to n
        invariant Valid() && st.live == old(st.live)
        invariant Blocks(st) == was[dst := was[src][..i] + was[dst][i..]]
      {
        WordThere(st, src, i);
        WordRead(st, src, i);
        CopyStep(was, Blocks(st), src, dst, i);
        Store(dst, i, mem[src + 8 * i]);
      }
    }

    /** Grows a block in place where it can, else moves it with its contents;
        on failure the old block stands. */
    method KRealloc(ptr: nat, size: nat, backing: Backing) returns (r: nat)
      requires Valid() && (ptr == 0 || ptr in st.live) && size < 0x1_0000_0000
      modifies this
      ensures Valid()
      ensures ptr == 0 ==> (r == 0 <==> size == 0 || !Servable(old(st), size, backing))
      ensures ptr != 0 && size > old(st.live)[ptr] ==> (r == 0 <==> !Servable(old(st), size, backing))
      ensures ptr == 0 && r != 0 ==>
        && r !in old(st.live) && r in st.live && st.live == old(st.live)[r := st.live[r]] && Answers(size, st.live[r])
        && Blocks(st) == old(Blocks(st))[r := Blocks(st)[r]]
      ensures ptr != 0 && size == 0 ==>
        r == 0 && st.live == old(st.live) - {ptr} && Blocks(st) == old(Blocks(st)) - {ptr}
      ensures ptr != 0 && 0 < size <= old(st.live)[ptr] ==> r == ptr && st == old(st)
      ensures (ptr == 0 || size > old(st.live)[ptr]) && r == 0 ==>
        st.live == old(st.live) && Blocks(st) == old(Blocks(st)) && st.slabs == old(st.slabs)
      ensures ptr != 0 && size > old(st.live)[ptr] && r != 0 ==>
        && r !in old(st.live) && r in st.live && size <= st.live[r]
        && st.live == old(st.live)[r := st.live[r]] - {ptr}
        && old(Blocks(st))[ptr] <= Blocks(st)[r]
        && Blocks(st) == old(Blocks(st))[r := Blocks(st)[r]] - {ptr}
    {
      hide HeapOk, Blocks, Servable;
      if ptr == 0 {
        r := KMalloc(size, backing);
        return;
      }
      if size == 0 {
        KFree(ptr);
        return 0;
      }
      var oldSize := BlockSize(ptr);
      if size <= oldSize {
        return ptr;
      }
      r := MoveBlock(ptr, oldSize, size, backing);
    }

    /** A larger block that starts with the contents of ptr. */
    method CopyBlock(ptr: nat, oldSize: nat, size: nat, backing: Backing) returns (r: nat)
      requires Valid() && ptr in st.live && oldSize == st.live[ptr] && oldSize < size < 0x1_0000_0000
      modifies this
      ensures Valid() && (r == 0 <==> !Servable(old(st), size, backing))
      ensures r == 0 ==> st.live == old(st.live) && Blocks(st) == old(Blocks(st)) && st.slabs == old(st.slabs)
      ensures r != 0 ==>
        && r !in old(st.live) && r in st.live && size <= st.live[r] && st.live == old(st.live)[r := st.live[r]]
        && old(Blocks(st))[ptr] <= Blocks(st)[r] && Blocks(st) == old(Blocks(st))[r := Blocks(st)[r]]
    {
      hide HeapOk, Blocks, Servable, Answers;
      ghost var was := Blocks(st);
      BlockLength(st, ptr);
      BlockDomain(st);
      r := KMalloc(size, backing);
      if r == 0 {
        return;
      }
      ghost var b1 := Blocks(st);
      AnswersFit(size, st.live[r]);
      BlockLength(st, r);
      CopyWords(r, ptr, oldSize / 8);
      CopiedBlocks(was, b1, Blocks(st), ptr, r);
    }

    method MoveBlock(ptr: nat, oldSize: nat, size: nat, backing: Backing) returns (r: nat)
      requires Valid() && ptr in st.live && oldSize == st.live[ptr] && oldSize < size < 0x1_0000_0000
      modifies this
      ensures Valid() && (r == 0 <==> !Servable(old(st), size, backing))
      ensures r == 0 ==> st.live == old(st.live) && Blocks(st) == old(Blocks(st)) && st.slabs == old(st.slabs)
      ensures r != 0 ==>
        && r !in old(st.live) && r in st.live && size <= st.live[r]
        && st.live == old(st.live)[r := st.live[r]] - {ptr}
        && old(Blocks(st))[ptr] <= Blocks(st)[r]
        && Blocks(st) == old(Blocks(st))[r := Blocks(st)[r]] - {ptr}
    {
      hide HeapOk, Blocks, Servable;
      BlockDomain(st);
      r := CopyBlock(ptr, oldSize, size, backing);
      if r == 0 {
        return;
      }
      BlockDomain(st);
      KFree(ptr);
    }

    /** The size of a live block, from its page header. */
    method BlockSize(ptr: nat) returns (n: nat)
      requires Valid() && ptr in st.live
      ensures n == st.live[ptr]
    {
      hide HeapOk, SlotLive;
      MagicTells(st, ptr);
      if Magic(mem[Base(ptr)]) == SLAB_MAGIC {
        n := ObjSize(mem[Base(ptr)]);
      } else {
        RoomIs(st, ptr);
        n := mem[ptr - 16] * PAGE_SIZE - 16;
      }
    }
  }

  ghost predicate PagesThere(mem: Memory, b: nat, n: nat)
  {
    forall x :: b <= x < b + n * PAGE_SIZE && x % 8 == 0 ==> x in mem
  }

  lemma PagesStart(s: State, mem: Memory, b: nat, n: nat)
    requires s.next == b && b % PAGE_SIZE == 0 && s.mem == mem
    ensures Extends(s, mem, b + n * PAGE_SIZE) && PagesThere(mem, b, 0)
  {
    assert b + n * PAGE_SIZE == (b / PAGE_SIZE + n) * PAGE_SIZE;
    ModIs(b + n * PAGE_SIZE, b / PAGE_SIZE + n, PAGE_SIZE, 0);
  }

  lemma PagesNext(s: State, mem: Memory, b: nat, n: nat, i: nat, stale: nat -> nat)
    requires HeapOk(s) && s.next == b && i < n && Extends(s, mem, b + n * PAGE_SIZE) && PagesThere(mem, b, i)
    ensures ghost var mem' := Backed(mem, b + i * PAGE_SIZE, stale);
      Extends(s, mem', b + n * PAGE_SIZE) && PagesThere(mem', b, i + 1)
  {
    hide HeapOk, Extends;
    ExtendsMore(s, mem, b + n * PAGE_SIZE, b + i * PAGE_SIZE, stale);
  }

  lemma BackedPage(s: State, p: nat, stale: nat -> nat)
    requires HeapOk(s) && p == s.next
    ensures PageIn(Backed(s.mem, p, stale), p) && Extends(s, Backed(s.mem, p, stale), p + PAGE_SIZE)
  {
    hide SlabsOk, ListsOk, LargesOk, LiveOk, PartOk;
  }

  lemma FormattedExtends(s: State, backed: Memory, mem': Memory, next': nat)
    requires HeapOk(s) && Extends(s, backed, next') && mem'.Keys == backed.Keys && next' == s.next + PAGE_SIZE
    requires forall x :: x in backed && !(s.next <= x < next') ==> mem'[x] == backed[x]
    ensures Extends(s, mem', next')
  {
    hide SlabsOk, ListsOk, LargesOk, LiveOk, PartOk;
  }

  lemma CopiedBlocks(b0: map<nat, seq<nat>>, b1: map<nat, seq<nat>>, b2: map<nat, seq<nat>>, ptr: nat, r: nat)
    requires ptr in b0 && r !in b0 && r in b1 && b1 == b0[r := b1[r]] && |b0[ptr]| <= |b1[r]|
    requires b2 == b1[r := b1[ptr][..|b0[ptr]|] + b1[r][|b0[ptr]|..]]
    ensures r in b2 && b0[ptr] <= b2[r] && b2 == b0[r := b2[r]]
  {
    assert b1[ptr] == b0[ptr] && b0[ptr][..|b0[ptr]|] == b0[ptr];
  }

  lemma BlockDomain(s: State)
    ensures Blocks(s).Keys == s.live.Keys
  {}

  lemma AnswersFit(size: nat, capacity: nat)
    requires Answers(size, capacity)
    ensures size <= capacity
  {}

  lemma CopyStep(was: map<nat, seq<nat>>, now: map<nat, seq<nat>>, src: nat, dst: nat, i: nat)
    requires src in was && dst in was && src != dst && i < |was[src]| && i < |was[dst]|
    requires now == was[dst := was[src][..i] + was[dst][i..]]
    ensures now[src] == was[src] && i < |now[dst]|
    ensures now[dst := Put(now[dst], i, was[src][i])] == was[dst := was[src][..i + 1] + was[dst][i + 1..]]
  {
    assert Put(now[dst], i, was[src][i]) == was[src][..i + 1] + was[dst][i + 1..];
  }

  lemma WordRead(s: State, a: nat, i: nat)
    requires a in s.live && i < s.live[a] / 8 && a + 8 * i in s.mem
    ensures a in Blocks(s) && i < |Blocks(s)[a]| && Blocks(s)[a][i] == s.mem[a + 8 * i]
  {}

  lemma BlockLength(s: State, a: nat)
    requires a in s.live
    ensures a in Blocks(s) && |Blocks(s)[a]| == s.live[a] / 8
  {}

  /** Blocks are whole words. */
  lemma BlockCovers(s: State, a: nat)
    requires HeapOk(s) && a in s.live
    ensures a in Blocks(s) && s.live[a] == 8 * |Blocks(s)[a]|
  {
    hide Base, IsClass, SlotAt, FreeListOk, PageIn, ListsOk;
    assert Capacity(s.slabs, s.larges, a) == Some(s.live[a]);
    if SlotLive(s.slabs, a) {
      assert SlabOk(s.mem, Base(a), s.slabs[Base(a)]);
      ClassWords(s.slabs[Base(a)].size);
    }
  }

  lemma ClassWords(size: nat)
    requires IsClass(size)
    ensures size % 8 == 0
  {}

  lemma RoomIs(s: State, a: nat)
    requires HeapOk(s) && a >= 16 && a - 16 in s.larges
    ensures s.larges[a - 16] > 0 && Room(s.larges[a - 16]) == s.larges[a - 16] * PAGE_SIZE - 16
  {
    assert LargeOk(s.mem, a - 16, s.larges[a - 16]);
  }

  lemma NoNull(s: State)
    requires HeapOk(s)
    ensures 0 !in s.live && s.live - {0} == s.live && Blocks(s) - {0} == Blocks(s)
  {
    hide HeapOk;
    if 0 in s.live { BlockAligned(s, 0); }
  }

  lemma SlotApart(s: State, a: nat)
    requires HeapOk(s) && SlotLive(s.slabs, a)
    ensures Base(a) in s.slabs && a != Base(a) + 8 && a != Base(a) + 16
  {
    hide SlabsOk, ListsOk, LargesOk, LiveOk, PartOk, Base;
  }

  function WithoutPage(mem: Memory, p: nat): Memory
  {
    map x | x in mem && !(p <= x < p + PAGE_SIZE) :: mem[x]
  }

  lemma UnmappedNone(mem: Memory, b: nat)
    ensures Unmapped(mem, b, 0) == mem
  {}

  lemma UnmappedStep(mem: Memory, b: nat, i: nat)
    ensures WithoutPage(Unmapped(mem, b, i), b + i * PAGE_SIZE) == Unmapped(mem, b, i + 1)
  {}

  lemma RoomAt(s: State, p: nat)
    requires p in s.slabs && |s.slabs[p].free| > 0
    ensures HasRoom(s, s.slabs[p].size)
  {}

  lemma RoundedAnswers(size: nat)
    requires 0 < size <= 1024
    ensures forall k :: Answers(size, k) <==> Answers(if size < 16 then 16 else size, k)
  {}

  lemma NextOk(s: State)
    requires HeapOk(s)
    ensures s.next % PAGE_SIZE == 0 && s.next > 0
  {}

  lemma ExtendsMore(s: State, mem: Memory, next': nat, p: nat, stale: nat -> nat)
    requires Extends(s, mem, next') && s.next <= p && p + PAGE_SIZE <= next' && HeapOk(s)
    ensures Extends(s, Backed(mem, p, stale), next')
  {
    hide SlabsOk, ListsOk, LargesOk, LiveOk, PartOk;
  }

  lemma ExtendsHeader(s: State, mem: Memory, next': nat, b: nat, n: nat)
    requires Extends(s, mem, next') && HeapOk(s) && s.next == b && next' == b + n * PAGE_SIZE && 1 <= n <= 0x10_0001
    requires PagesThere(mem, b, n)
    ensures Extends(s, mem[b := n][b + 8 := CANARY], next') && LargeOk(mem[b := n][b + 8 := CANARY], b, n)
  {
    hide SlabsOk, ListsOk, LargesOk, LiveOk, PartOk;
  }

  lemma FreshEnds(s: State, s': State, b: nat)
    requires HeapOk(s) && s.next == b && s'.slabs == s.slabs && s'.part == s.part && s'.larges == s.larges
    ensures EndsBy(s', b)
  {
    hide SlabsOk, ListsOk, LargesOk, LiveOk, PartOk;
  }

  lemma MoreBlocks(s: State, s': State, r: nat, size: nat)
    requires s'.live == s.live[r := size] && r !in s.live
    requires forall a :: a in s.live ==> Words(s'.mem, a, s.live[a] / 8) == Words(s.mem, a, s.live[a] / 8)
    ensures Blocks(s') == Blocks(s)[r := Blocks(s')[r]] && |s'.live| == |s.live| + 1
  {
    hide Words;
    OneMore(s.live, r, size);
    var m := Blocks(s)[r := Blocks(s')[r]];
    assert m.Keys == s'.live.Keys;
    forall a | a in m ensures Blocks(s')[a] == m[a] {}
  }

  lemma OneMore(live: map<nat, nat>, r: nat, size: nat)
    requires r !in live
    ensures |live[r := size]| == |live| + 1
  {
    assert live[r := size].Keys == live.Keys + {r};
  }

  lemma FewerBlocks(s: State, s': State, r: nat)
    requires r in s.live && s'.live == s.live - {r}
    requires forall a :: a in s.live && a != r ==> Words(s'.mem, a, s.live[a] / 8) == Words(s.mem, a, s.live[a] / 8)
    ensures Blocks(s') == Blocks(s) - {r} && |s.live| == |s'.live| + 1
  {
    hide Words;
    assert s'.live[r := s.live[r]] == s.live;
    OneMore(s'.live, r, s.live[r]);
    var m := Blocks(s) - {r};
    assert m.Keys == s'.live.Keys;
    forall a | a in m ensures Blocks(s')[a] == m[a] {}
  }

  lemma SameBlocks(s: State, s': State)
    requires s'.live == s.live
    requires forall a :: a in s.live ==> Words(s'.mem, a, s.live[a] / 8) == Words(s.mem, a, s.live[a] / 8)
    ensures Blocks(s') == Blocks(s)
  {
    hide Words;
  }
}
