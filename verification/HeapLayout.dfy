/** The kernel heap as it lies in memory: slab pages that start with a header and
    thread a free list through their free slots, and large blocks behind a
    two-word header. Memory is read and written in 8-byte words. */
module HeapLayout {
  import opened Wrappers
  import Lists
  import Paging

  const PAGE_SIZE: nat := Paging.PAGE_SIZE
  const SLAB_HDR: nat := 64
  const SLAB_MAGIC: nat := 0xA110C8ED
  const CANARY: nat := 0xFEEDFACEDEADBEEF
  const SIZES: seq<nat> := [16, 32, 64, 128, 256, 512, 1024]

  type Memory = map<nat, nat>

  /** A slab: the size of its slots and its free slots, in the order of the free list. */
  datatype Slab = Slab(size: nat, free: seq<nat>)

  /** mem, heads and next are what the kernel keeps; the rest says what they mean:
      the slabs and the per-class lists they are on, the large blocks with their
      page counts, the block each of their pages is part of, and the size of
      every block a client holds. */
  datatype State = State(
    mem: Memory, heads: seq<nat>, next: nat,
    slabs: map<nat, Slab>, lists: seq<seq<nat>>,
    larges: map<nat, nat>, part: map<nat, nat>, live: map<nat, nat>)

  /** The page an address lies in. */
  function Base(a: nat): nat
  {
    a - a % PAGE_SIZE
  }

  predicate IsClass(size: nat)
  {
    size == 16 || size == 32 || size == 64 || size == 128 || size == 256 || size == 512 || size == 1024
  }

  /** How many slots a slab has. */
  function Slots(size: nat): nat
    requires IsClass(size)
  {
    (PAGE_SIZE - SLAB_HDR) / size
  }

  /** A slab has as many slots as fit behind its header. */
  lemma SlotsFit(size: nat)
    requires IsClass(size)
    ensures 64 + Slots(size) * size <= 4096 < 64 + (Slots(size) + 1) * size
  {}

  /** a is a slot of the slab at p. */
  ghost predicate SlotAt(p: nat, size: nat, a: nat)
    requires IsClass(size)
  {
    p + SLAB_HDR <= a && a + size <= p + PAGE_SIZE && (a - p - SLAB_HDR) % size == 0
  }

  // The fields of the first two header words, from the low end up.

  function Magic(w: nat): nat { w % 0x1_0000_0000 }

  function ObjSize(w: nat): nat { w / 0x1_0000_0000 % 0x1_0000_0000 }

  function FreeCount(w: nat): nat { w % 0x1_0000 }

  function TotalCount(w: nat): nat { w / 0x1_0000 % 0x1_0000 }

  function WithFreeCount(w: nat, n: nat): nat { w - w % 0x1_0000 + n % 0x1_0000 }

  /** A link as a word in memory: an address, 0 for NULL. */
  function RefAt(s: seq<nat>, i: int): nat
  {
    match Lists.At(s, i)
    case None => 0
    case Some(a) => a
  }

  function NextRef(s: seq<nat>, i: int): nat { RefAt(s, i + 1) }

  function PrevRef(s: seq<nat>, i: int): nat { RefAt(s, i - 1) }

  /** The words of the page at p are there. */
  ghost predicate PageIn(mem: Memory, p: nat)
  {
    forall a :: p <= a < p + PAGE_SIZE && a % 8 == 0 ==> a in mem
  }

  /** The free list of the slab at p spells free: distinct slots, the last linked to NULL. */
  ghost predicate FreeListOk(mem: Memory, p: nat, size: nat, free: seq<nat>)
    requires IsClass(size) && p + 16 in mem
  {
    && Lists.Distinct(free)
    && (forall k :: 0 <= k < |free| ==> SlotAt(p, size, free[k]) && free[k] in mem)
    && mem[p + 16] == RefAt(free, 0)
    && (forall k {:trigger NextRef(free, k)} :: 0 <= k < |free| ==> mem[free[k]] == NextRef(free, k))
  }

  ghost predicate SlabOk(mem: Memory, p: nat, sl: Slab)
  {
    && p % PAGE_SIZE == 0 && p > 0 && IsClass(sl.size) && PageIn(mem, p)
    && p in mem && p + 8 in mem && p + 16 in mem && p + 24 in mem && p + 32 in mem
    && Magic(mem[p]) == SLAB_MAGIC && ObjSize(mem[p]) == sl.size
    && FreeCount(mem[p + 8]) == |sl.free| && TotalCount(mem[p + 8]) == Slots(sl.size)
    && FreeListOk(mem, p, sl.size, sl.free)
  }

  ghost predicate SlabsOk(mem: Memory, slabs: map<nat, Slab>)
  {
    forall p {:trigger p in slabs} :: p in slabs ==> SlabOk(mem, p, slabs[p])
  }

  /** The next and prev links of one class spell l, which holds exactly its slabs. */
  ghost predicate ListOk(mem: Memory, head: nat, l: seq<nat>, slabs: map<nat, Slab>, size: nat)
  {
    && Lists.Distinct(l) && head == RefAt(l, 0)
    && (forall i :: 0 <= i < |l| ==> l[i] in slabs && slabs[l[i]].size == size && l[i] + 24 in mem && l[i] + 32 in mem)
    && (forall i {:trigger NextRef(l, i)} :: 0 <= i < |l| ==> mem[l[i] + 24] == NextRef(l, i))
    && (forall i {:trigger PrevRef(l, i)} :: 0 <= i < |l| ==> mem[l[i] + 32] == PrevRef(l, i))
    && (forall p :: p in slabs && slabs[p].size == size ==> p in l)
  }

  ghost predicate ListsOk(mem: Memory, heads: seq<nat>, lists: seq<seq<nat>>, slabs: map<nat, Slab>)
  {
    && |heads| == |SIZES| && |lists| == |SIZES|
    && (forall c {:trigger lists[c]} :: 0 <= c < |SIZES| ==> ListOk(mem, heads[c], lists[c], slabs, SIZES[c]))
  }

  ghost predicate LargeOk(mem: Memory, b: nat, n: nat)
  {
    && b % PAGE_SIZE == 0 && b > 0 && 1 <= n <= 0x10_0001
    && b in mem && b + 8 in mem && mem[b] == n && mem[b + 8] == CANARY
    && (forall a :: b <= a < b + n * PAGE_SIZE && a % 8 == 0 ==> a in mem)
  }

  ghost predicate LargesOk(mem: Memory, larges: map<nat, nat>)
  {
    forall b {:trigger b in larges} :: b in larges ==> LargeOk(mem, b, larges[b])
  }

  /** Each page of a large block is part of that block, and of no slab. */
  ghost predicate PartOk(slabs: map<nat, Slab>, larges: map<nat, nat>, part: map<nat, nat>)
  {
    && (forall q :: q in part ==> q !in slabs && part[q] in larges)
    && (forall b, q {:trigger b in larges, q in part} ::
          b in larges && b <= q < b + larges[b] * PAGE_SIZE && q % PAGE_SIZE == 0 ==> q in part && part[q] == b)
  }

  /** Everything lies below the next page to be handed out. */
  ghost predicate BelowOk(s: State)
  {
    && s.next % PAGE_SIZE == 0 && s.next > 0
    && (forall p :: p in s.slabs ==> p + PAGE_SIZE <= s.next)
    && (forall q :: q in s.part ==> q + PAGE_SIZE <= s.next)
    && (forall b :: b in s.larges ==> b + s.larges[b] * PAGE_SIZE <= s.next)
    && (forall a :: a in s.mem ==> a < s.next)
  }

  /** What n pages hold behind the header of a large block. */
  function Room(n: nat): nat
  {
    if n == 0 then 0 else n * PAGE_SIZE - 16
  }

  ghost predicate SlotLive(slabs: map<nat, Slab>, a: nat)
  {
    var p := Base(a);
    p in slabs && IsClass(slabs[p].size) && SlotAt(p, slabs[p].size, a) && a !in slabs[p].free
  }

  /** The capacity of the block at a, if a client holds one there. */
  ghost function Capacity(slabs: map<nat, Slab>, larges: map<nat, nat>, a: nat): Option<nat>
  {
    if SlotLive(slabs, a) then Some(slabs[Base(a)].size)
    else if a >= 16 && a - 16 in larges then Some(Room(larges[a - 16]))
    else None
  }

  ghost predicate LiveOk(slabs: map<nat, Slab>, larges: map<nat, nat>, live: map<nat, nat>)
  {
    forall a {:trigger Capacity(slabs, larges, a)} ::
      Capacity(slabs, larges, a) == if a in live then Some(live[a]) else None
  }

  ghost predicate HeapOk(s: State)
  {
    && SlabsOk(s.mem, s.slabs) && ListsOk(s.mem, s.heads, s.lists, s.slabs)
    && LargesOk(s.mem, s.larges) && PartOk(s.slabs, s.larges, s.part)
    && BelowOk(s) && LiveOk(s.slabs, s.larges, s.live)
  }

  /** Whose word is at x: the block a client holds, or nobody's. */
  ghost function HolderOf(s: State, x: nat): Option<nat>
  {
    var p := Base(x);
    if p in s.slabs && IsClass(s.slabs[p].size) && x >= p + SLAB_HDR then
      Some(x - (x - p - SLAB_HDR) % s.slabs[p].size)
    else if p in s.part && x >= s.part[p] + 16 then Some(s.part[p] + 16)
    else None
  }

  lemma SlotHolds(p: nat, size: nat, a: nat, x: nat)
    requires IsClass(size) && SlotAt(p, size, a) && a <= x < a + size && p % PAGE_SIZE == 0
    ensures Base(x) == p && x - (x - p - SLAB_HDR) % size == a
  {
    hide Base;
    BaseIs(p, x);
    ModShift(a - p - SLAB_HDR, x - a, size);
  }

  /** Quotient and remainder are unique. */
  lemma ModIs(x: nat, q: nat, s: nat, r: nat)
    requires s > 0 && x == q * s + r && r < s
    ensures x % s == r
  {
    var q', r' := x / s, x % s;
    assert x == q' * s + r' && r' < s;
    if q > q' {
      Longer(q, q', s);
    } else if q < q' {
      Longer(q', q, s);
    }
  }

  lemma {:induction false} Longer(a: nat, b: nat, s: nat)
    requires a > b
    ensures a * s >= b * s + s
  {
    assert a * s == (a - 1) * s + s;
    if a > b + 1 { Longer(a - 1, b, s); }
  }

  lemma ModShift(d: nat, e: nat, size: nat)
    requires size > 0 && d % size == 0 && e < size
    ensures (d + e) % size == e
  {
    assert d == d / size * size;
    ModIs(d + e, d / size, size, e);
  }

  lemma BaseIs(p: nat, x: nat)
    requires p % PAGE_SIZE == 0 && p <= x < p + PAGE_SIZE
    ensures Base(x) == p
  {}

  lemma BaseWithin(b: nat, n: nat, x: nat)
    requires b % PAGE_SIZE == 0 && b <= x < b + n * PAGE_SIZE
    ensures b <= Base(x) < b + n * PAGE_SIZE && Base(x) % PAGE_SIZE == 0
  {}

  /** A word of a block is held by that block alone. */
  lemma HeldWord(s: State, a: nat, x: nat)
    requires HeapOk(s) && a in s.live && a <= x < a + s.live[a]
    ensures HolderOf(s, x) == Some(a)
  {
    hide Base, IsClass, SlotAt, FreeListOk, PageIn, ListsOk;
    assert Capacity(s.slabs, s.larges, a) == Some(s.live[a]);
    var p := Base(a);
    if SlotLive(s.slabs, a) {
      assert SlabOk(s.mem, p, s.slabs[p]);
      SlotHolds(p, s.slabs[p].size, a, x);
      assert x >= p + SLAB_HDR by { SlotPast(p, s.slabs[p].size, a); }
    } else {
      var b := a - 16;
      assert LargeOk(s.mem, b, s.larges[b]);
      BaseWithin(b, s.larges[b], x);
      assert Base(x) in s.part && s.part[Base(x)] == b;
    }
  }

  lemma SlotPast(p: nat, size: nat, a: nat)
    requires IsClass(size) && SlotAt(p, size, a) && p % PAGE_SIZE == 0
    ensures p + SLAB_HDR <= a && a % 16 == 0 && a % 8 == 0 && size >= 16 && a + size <= p + PAGE_SIZE && Base(a) == p
  {
    hide Base;
    BaseIs(p, a);
    var d := a - p - SLAB_HDR;
    Aligned(d, size);
    AlignedSum(p, d);
  }

  lemma AlignedSum(p: nat, d: nat)
    requires p % PAGE_SIZE == 0 && d % 16 == 0
    ensures (p + SLAB_HDR + d) % 16 == 0 && (p + SLAB_HDR + d) % 8 == 0
  {
    var m := 256 * (p / PAGE_SIZE) + 4 + d / 16;
    assert p + SLAB_HDR + d == m * 16;
    ModIs(p + SLAB_HDR + d, m, 16, 0);
    ModIs(p + SLAB_HDR + d, 2 * m, 8, 0);
  }

  lemma Aligned(d: nat, size: nat)
    requires IsClass(size) && d % size == 0
    ensures d % 16 == 0
  {
    var k := d / size;
    assert d == k * size;
    ModIs(d, if size == 16 then k else if size == 32 then 2 * k
             else if size == 64 then 4 * k else if size == 128 then 8 * k
             else if size == 256 then 16 * k else if size == 512 then 32 * k else 64 * k, 16, 0);
  }

  /** Two blocks do not overlap. */
  lemma BlocksApart(s: State, a: nat, b: nat)
    requires HeapOk(s) && a in s.live && b in s.live
    ensures a != b ==> a + s.live[a] <= b || b + s.live[b] <= a
  {
    hide HeapOk, HolderOf;
    BlockAligned(s, a);
    BlockAligned(s, b);
    if a < b + s.live[b] && b < a + s.live[a] {
      var x := if a < b then b else a;
      HeldWord(s, a, x);
      HeldWord(s, b, x);
    }
  }

  lemma BlockAligned(s: State, a: nat)
    requires HeapOk(s) && a in s.live
    ensures a % 16 == 0 && a > 0 && s.live[a] > 0
  {
    hide Base, IsClass, SlotAt, FreeListOk, PageIn, ListsOk;
    assert Capacity(s.slabs, s.larges, a) == Some(s.live[a]);
    if SlotLive(s.slabs, a) {
      assert SlabOk(s.mem, Base(a), s.slabs[Base(a)]);
      SlotPast(Base(a), s.slabs[Base(a)].size, a);
    } else {
      assert LargeOk(s.mem, a - 16, s.larges[a - 16]);
    }
  }

  /** No block reaches into a header. */
  lemma HeadersApart(s: State, a: nat, x: nat)
    requires HeapOk(s) && a in s.live && a <= x < a + s.live[a]
    ensures forall p :: p in s.slabs ==> !(p <= x < p + SLAB_HDR)
    ensures forall b :: b in s.larges ==> !(b <= x < b + 16)
  {
    hide Base, IsClass, SlotAt, FreeListOk, PageIn, ListsOk;
    HeldWord(s, a, x);
    forall p | p in s.slabs ensures !(p <= x < p + SLAB_HDR) {
      assert SlabOk(s.mem, p, s.slabs[p]);
      if p <= x < p + SLAB_HDR { BaseIs(p, x); }
    }
    forall b | b in s.larges ensures !(b <= x < b + 16) {
      assert LargeOk(s.mem, b, s.larges[b]);
      assert b in s.part && s.part[b] == b;
      if b <= x < b + 16 { BaseIs(b, x); }
    }
  }

  function Get(mem: Memory, x: nat): nat
  {
    if x in mem then mem[x] else 0
  }

  /** n words from a on. */
  ghost function Words(mem: Memory, a: nat, n: nat): seq<nat>
  {
    seq(n, i requires 0 <= i => Get(mem, a + 8 * i))
  }

  /** What the clients see: the contents of the blocks they hold. */
  ghost function Blocks(s: State): map<nat, seq<nat>>
  {
    map a | a in s.live :: Words(s.mem, a, s.live[a] / 8)
  }

  /** A block whose words stand keeps its contents. */
  lemma WordsKept(s: State, mem': Memory, a: nat)
    requires HeapOk(s) && a in s.live
    requires forall x :: HolderOf(s, x) == Some(a) ==> Get(mem', x) == Get(s.mem, x)
    ensures Words(mem', a, s.live[a] / 8) == Words(s.mem, a, s.live[a] / 8)
  {
    hide HeapOk, HolderOf;
    forall i | 0 <= i < s.live[a] / 8 ensures Get(mem', a + 8 * i) == Get(s.mem, a + 8 * i) {
      HeldWord(s, a, a + 8 * i);
    }
  }

  // What one store leaves alone.

  lemma SlabWrite(mem: Memory, p: nat, sl: Slab, x: nat, w: nat)
    requires SlabOk(mem, p, sl) && x in mem && !(p <= x < p + SLAB_HDR) && x !in sl.free
    ensures SlabOk(mem[x := w], p, sl)
  {
    hide IsClass, SlotAt;
    var mem' := mem[x := w];
    forall k | 0 <= k < |sl.free| ensures mem'[sl.free[k]] == NextRef(sl.free, k) {
      assert mem[sl.free[k]] == NextRef(sl.free, k);
    }
  }

  lemma SlabElsewhere(mem: Memory, p: nat, sl: Slab, x: nat, w: nat)
    requires SlabOk(mem, p, sl) && x in mem && Base(x) != p
    ensures SlabOk(mem[x := w], p, sl)
  {
    hide IsClass, SlotAt, Base;
    if p <= x < p + PAGE_SIZE { BaseIs(p, x); }
    forall k | 0 <= k < |sl.free| ensures sl.free[k] != x {
      SlotPast(p, sl.size, sl.free[k]);
    }
    SlabWrite(mem, p, sl, x, w);
  }

  lemma ListWrite(mem: Memory, head: nat, l: seq<nat>, slabs: map<nat, Slab>, size: nat, x: nat, w: nat)
    requires ListOk(mem, head, l, slabs, size) && x in mem
    requires forall p :: p in slabs ==> x != p + 24 && x != p + 32
    ensures ListOk(mem[x := w], head, l, slabs, size)
  {
    var mem' := mem[x := w];
    forall i | 0 <= i < |l| ensures mem'[l[i] + 24] == NextRef(l, i) && mem'[l[i] + 32] == PrevRef(l, i) {
      assert mem[l[i] + 24] == NextRef(l, i) && mem[l[i] + 32] == PrevRef(l, i);
    }
  }

  lemma ListsWrite(mem: Memory, heads: seq<nat>, lists: seq<seq<nat>>, slabs: map<nat, Slab>, x: nat, w: nat)
    requires ListsOk(mem, heads, lists, slabs) && x in mem
    requires forall p :: p in slabs ==> x != p + 24 && x != p + 32
    ensures ListsOk(mem[x := w], heads, lists, slabs)
  {
    hide ListOk;
    forall c | 0 <= c < |SIZES| ensures ListOk(mem[x := w], heads[c], lists[c], slabs, SIZES[c]) {
      ListWrite(mem, heads[c], lists[c], slabs, SIZES[c], x, w);
    }
  }

  lemma LargesWrite(mem: Memory, larges: map<nat, nat>, x: nat, w: nat)
    requires LargesOk(mem, larges) && x in mem && forall b :: b in larges ==> x != b && x != b + 8
    ensures LargesOk(mem[x := w], larges)
  {
    forall b | b in larges ensures LargeOk(mem[x := w], b, larges[b]) {
      assert LargeOk(mem, b, larges[b]);
    }
  }

  /** A client's store into its own block keeps the heap sound and every other block's contents. */
  lemma Poked(s: State, a: nat, x: nat, w: nat)
    requires HeapOk(s) && a in s.live && a <= x < a + s.live[a] && x in s.mem
    ensures HeapOk(s.(mem := s.mem[x := w]))
  {
    hide Base, IsClass, SlotAt, FreeListOk, PageIn, ListOk, LargeOk, Magic, ObjSize, FreeCount, TotalCount;
    HeldWord(s, a, x);
    HeadersApart(s, a, x);
    forall p | p in s.slabs ensures SlabOk(s.mem[x := w], p, s.slabs[p]) {
      NotFree(s, a, x, p);
      SlabWrite(s.mem, p, s.slabs[p], x, w);
    }
    ListsWrite(s.mem, s.heads, s.lists, s.slabs, x, w);
    LargesWrite(s.mem, s.larges, x, w);
  }

  lemma NotFree(s: State, a: nat, x: nat, p: nat)
    requires HeapOk(s) && a in s.live && a <= x < a + s.live[a] && p in s.slabs
    ensures x !in s.slabs[p].free
  {
    hide HeapOk, HolderOf, SlabOk;
    HeldWord(s, a, x);
    if x in s.slabs[p].free {
      FreeHolder(s, p, x);
      FreeNotLive(s, p, x);
    }
  }

  lemma FreeHolder(s: State, p: nat, x: nat)
    requires HeapOk(s) && p in s.slabs && x in s.slabs[p].free
    ensures Base(x) == p && HolderOf(s, x) == Some(x)
  {
    hide Base, IsClass, SlotAt, PageIn, ListsOk, LargesOk, LiveOk, Magic, ObjSize, FreeCount, TotalCount;
    assert SlabOk(s.mem, p, s.slabs[p]);
    SlotPast(p, s.slabs[p].size, x);
    SlotHolds(p, s.slabs[p].size, x, x);
  }

  lemma FreeNotLive(s: State, p: nat, x: nat)
    requires HeapOk(s) && p in s.slabs && x in s.slabs[p].free
    ensures x !in s.live
  {
    hide IsClass, SlotAt, PageIn, ListsOk, FreeListOk, Base, Magic, ObjSize, FreeCount, TotalCount;
    assert Capacity(s.slabs, s.larges, x) == if x in s.live then Some(s.live[x]) else None;
    FreeHolder(s, p, x);
    if x >= 16 && x - 16 in s.larges {
      assert LargeOk(s.mem, x - 16, s.larges[x - 16]);
      assert x - 16 in s.part;
      BaseIs(x - 16, x);
    }
  }

  function Put(ws: seq<nat>, i: nat, w: nat): seq<nat>
    requires i < |ws|
  {
    ws[i := w]
  }

  /** A store shows in the block it goes to, and in no other. */
  lemma PokedBlocks(s: State, a: nat, i: nat, w: nat)
    requires HeapOk(s) && a in s.live && i < s.live[a] / 8 && a + 8 * i in s.mem
    ensures ghost var s' := s.(mem := s.mem[a + 8 * i := w]);
      Blocks(s') == Blocks(s)[a := Put(Blocks(s)[a], i, w)]
  {
    hide HeapOk, HolderOf;
    var s' := s.(mem := s.mem[a + 8 * i := w]);
    HeldWord(s, a, a + 8 * i);
    forall b | b in s.live ensures Blocks(s')[b] == if b == a then Put(Blocks(s)[a], i, w) else Blocks(s)[b] {
      if b != a { WordsKept(s, s'.mem, b); }
    }
  }

  /** All but the slab at p, as it stands in memory. */
  ghost predicate Rest(s: State, mem: Memory, p: nat)
  {
    && (forall q {:trigger q in s.slabs} :: q in s.slabs && q != p ==> SlabOk(mem, q, s.slabs[q]))
    && ListsOk(mem, s.heads, s.lists, s.slabs) && LargesOk(mem, s.larges)
  }

  lemma RestStore(s: State, mem: Memory, p: nat, x: nat, w: nat)
    requires HeapOk(s) && Rest(s, mem, p) && p in s.slabs
    requires x in mem && Base(x) == p && x != p + 24 && x != p + 32
    ensures Rest(s, mem[x := w], p)
  {
    hide Base, IsClass, SlotAt, FreeListOk, PageIn, ListsOk, Magic, ObjSize, FreeCount, TotalCount;
    forall q | q in s.slabs && q != p ensures SlabOk(mem[x := w], q, s.slabs[q]) && x != q + 24 && x != q + 32 {
      SlabElsewhere(mem, q, s.slabs[q], x, w);
      BaseIs(q, q + 24);
      BaseIs(q, q + 32);
    }
    ListsWrite(mem, s.heads, s.lists, s.slabs, x, w);
    forall b | b in s.larges ensures x != b && x != b + 8 {
      assert LargeOk(s.mem, b, s.larges[b]);
      assert b in s.part;
      BaseIs(b, b);
      BaseIs(b, b + 8);
    }
    LargesWrite(mem, s.larges, x, w);
  }

  lemma ListsSlab(mem: Memory, heads: seq<nat>, lists: seq<seq<nat>>, slabs: map<nat, Slab>, p: nat, sl: Slab)
    requires ListsOk(mem, heads, lists, slabs) && p in slabs && sl.size == slabs[p].size
    ensures ListsOk(mem, heads, lists, slabs[p := sl])
  {
    forall c | 0 <= c < |SIZES| ensures ListOk(mem, heads[c], lists[c], slabs[p := sl], SIZES[c]) {
      assert ListOk(mem, heads[c], lists[c], slabs, SIZES[c]);
    }
  }

  /** A slab changes, and nothing else does. */
  lemma SlabChanged(s: State, mem': Memory, p: nat, sl: Slab, live': map<nat, nat>)
    requires HeapOk(s) && p in s.slabs && Rest(s, mem', p) && mem'.Keys == s.mem.Keys
    requires SlabOk(mem', p, sl) && sl.size == s.slabs[p].size && LiveOk(s.slabs[p := sl], s.larges, live')
    ensures HeapOk(s.(mem := mem', slabs := s.slabs[p := sl], live := live'))
  {
    hide SlabOk, LiveOk, ListsOk;
    ListsSlab(mem', s.heads, s.lists, s.slabs, p, sl);
  }

  lemma WithCount(w: nat, n: nat)
    requires n < 0x1_0000
    ensures FreeCount(WithFreeCount(w, n)) == n && TotalCount(WithFreeCount(w, n)) == TotalCount(w)
  {
    var k := w / 0x1_0000;
    assert w - w % 0x1_0000 == k * 0x1_0000;
    assert (k * 0x1_0000 + n) / 0x1_0000 == k;
  }

  /** Memory after the first free slot of the slab at p is taken. */
  function TakenMem(mem: Memory, p: nat): Memory
    requires p + 8 in mem && p + 16 in mem
  {
    var mem1 := mem[p + 16 := Get(mem, mem[p + 16])];
    mem1[p + 8 := WithFreeCount(mem[p + 8], FreeCount(mem[p + 8]) + 0xFFFF)]
  }

  lemma TakenSlab(mem: Memory, p: nat, sl: Slab)
    requires SlabOk(mem, p, sl) && |sl.free| > 0
    ensures SlabOk(TakenMem(mem, p), p, sl.(free := sl.free[1..]))
  {
    hide IsClass, SlotAt, PageIn, WithFreeCount, TotalCount, FreeListOk;
    var mem', w := TakenMem(mem, p), mem[p + 8];
    SameCount(w, |sl.free| - 1);
    WithCount(w, |sl.free| - 1);
    TakenFree(mem, mem', p, sl.size, sl.free);
    PageStays(mem, mem', p);
  }

  lemma TakenFree(mem: Memory, mem': Memory, p: nat, size: nat, free: seq<nat>)
    requires IsClass(size) && p % PAGE_SIZE == 0 && p + 16 in mem && FreeListOk(mem, p, size, free) && |free| > 0
    requires p + 16 in mem' && mem'[p + 16] == Get(mem, mem[p + 16])
    requires forall x :: x in mem && x != p + 8 && x != p + 16 ==> x in mem' && mem'[x] == mem[x]
    ensures FreeListOk(mem', p, size, free[1..])
  {
    hide IsClass, SlotAt;
    var rest := free[1..];
    assert mem[free[0]] == NextRef(free, 0);
    forall k | 0 <= k < |rest|
      ensures SlotAt(p, size, rest[k]) && rest[k] in mem' && mem'[rest[k]] == NextRef(rest, k)
    {
      assert rest[k] == free[k + 1] && mem[free[k + 1]] == NextRef(free, k + 1);
      SlotPast(p, size, rest[k]);
    }
  }

  lemma SameCount(w: nat, n: nat)
    requires FreeCount(w) == n + 1
    ensures WithFreeCount(w, FreeCount(w) + 0xFFFF) == WithFreeCount(w, n)
  {}

  lemma PageStays(mem: Memory, mem': Memory, p: nat)
    requires PageIn(mem, p) && mem.Keys <= mem'.Keys
    ensures PageIn(mem', p)
  {}

  lemma TakenLive(s: State, p: nat)
    requires HeapOk(s) && p in s.slabs && |s.slabs[p].free| > 0
    ensures ghost var sl := s.slabs[p];
      LiveOk(s.slabs[p := sl.(free := sl.free[1..])], s.larges, s.live[sl.free[0] := sl.size])
  {
    hide Base, IsClass, SlotAt, PageIn, ListsOk, LargesOk, PartOk, Magic, ObjSize, FreeCount, TotalCount;
    var sl := s.slabs[p];
    var f, rest := sl.free[0], sl.free[1..];
    assert SlabOk(s.mem, p, sl);
    SlotPast(p, sl.size, f);
    var slabs', live' := s.slabs[p := sl.(free := rest)], s.live[f := sl.size];
    forall a ensures Capacity(slabs', s.larges, a) == if a in live' then Some(live'[a]) else None {
      assert Capacity(s.slabs, s.larges, a) == if a in s.live then Some(s.live[a]) else None;
      assert a in sl.free <==> a == f || a in rest;
    }
  }

  /** Taking a slot hands out a block that nobody held. */
  lemma Taken(s: State, p: nat)
    requires HeapOk(s) && p in s.slabs && |s.slabs[p].free| > 0
    ensures ghost var sl := s.slabs[p]; ghost var f := sl.free[0];
      && f !in s.live && p + 8 in s.mem && p + 16 in s.mem && s.mem[p + 16] == f && f > 0
      && HeapOk(s.(mem := TakenMem(s.mem, p), slabs := s.slabs[p := sl.(free := sl.free[1..])],
                   live := s.live[f := sl.size]))
  {
    hide Base, IsClass, SlotAt, PageIn, Rest, ListsOk, LargesOk, PartOk, LiveOk, Magic, ObjSize, FreeCount, TotalCount;
    var sl := s.slabs[p];
    var f := sl.free[0];
    assert SlabOk(s.mem, p, sl);
    FreeNotLive(s, p, f);
    SlotPast(p, sl.size, f);
    TakenRest(s, p);
    TakenSlab(s.mem, p, sl);
    TakenLive(s, p);
    SlabChanged(s, TakenMem(s.mem, p), p, sl.(free := sl.free[1..]), s.live[f := sl.size]);
  }

  lemma TakenRest(s: State, p: nat)
    requires HeapOk(s) && p in s.slabs
    ensures p + 8 in s.mem && p + 16 in s.mem && Rest(s, TakenMem(s.mem, p), p)
  {
    hide Base, IsClass, SlotAt, FreeListOk, PageIn, WithFreeCount, FreeCount, TotalCount, PartOk, LiveOk;
    assert SlabOk(s.mem, p, s.slabs[p]);
    BaseIs(p, p + 8);
    BaseIs(p, p + 16);
    var mem1 := s.mem[p + 16 := Get(s.mem, s.mem[p + 16])];
    RestStore(s, s.mem, p, p + 16, Get(s.mem, s.mem[p + 16]));
    RestStore(s, mem1, p, p + 8, WithFreeCount(s.mem[p + 8], FreeCount(s.mem[p + 8]) + 0xFFFF));
  }

  /** Stores into headers and free slots do not show in any block. */
  lemma TakenBlocks(s: State, p: nat)
    requires HeapOk(s) && p in s.slabs && |s.slabs[p].free| > 0 && p + 8 in s.mem && p + 16 in s.mem
    ensures forall a :: a in s.live ==>
      Words(TakenMem(s.mem, p), a, s.live[a] / 8) == Words(s.mem, a, s.live[a] / 8)
  {
    hide HeapOk, Words;
    forall a | a in s.live
      ensures Words(TakenMem(s.mem, p), a, s.live[a] / 8) == Words(s.mem, a, s.live[a] / 8)
    {
      HeaderHolder(s, p, p + 8);
      HeaderHolder(s, p, p + 16);
      WordsKept(s, TakenMem(s.mem, p), a);
    }
  }

  lemma HeaderHolder(s: State, p: nat, x: nat)
    requires HeapOk(s) && p in s.slabs && p <= x < p + SLAB_HDR
    ensures HolderOf(s, x) == None
  {
    hide Base;
    assert SlabOk(s.mem, p, s.slabs[p]);
    BaseIs(p, x);
  }

  /** Memory after the slot at a is given back. */
  function GivenMem(mem: Memory, p: nat, a: nat): Memory
    requires p + 8 in mem && p + 16 in mem
  {
    mem[a := mem[p + 16]][p + 16 := a][p + 8 := WithFreeCount(mem[p + 8], FreeCount(mem[p + 8]) + 1)]
  }

  /** Distinct addresses in n bytes are at most n. */
  lemma {:induction false} Pigeons(s: seq<nat>, p: nat, n: nat)
    requires Lists.Distinct(s) && forall k :: 0 <= k < |s| ==> p <= s[k] < p + n
    ensures |s| <= n
  {
    if |s| > 0 {
      assert p <= s[0] < p + n;
      if k :| 0 <= k < |s| && s[k] == p + n - 1 {
        Pigeons(s[..k] + s[k + 1..], p, n - 1);
      } else {
        Pigeons(s, p, n - 1);
      }
    }
  }

  lemma GivenFree(mem: Memory, p: nat, size: nat, free: seq<nat>, a: nat)
    requires IsClass(size) && p % PAGE_SIZE == 0 && p + 8 in mem && p + 16 in mem && FreeListOk(mem, p, size, free)
    requires SlotAt(p, size, a) && a in mem && a !in free
    ensures FreeListOk(GivenMem(mem, p, a), p, size, [a] + free)
  {
    hide IsClass, SlotAt, WithFreeCount, FreeCount;
    var mem', free' := GivenMem(mem, p, a), [a] + free;
    SlotPast(p, size, a);
    forall k | 0 <= k < |free'|
      ensures SlotAt(p, size, free'[k]) && free'[k] in mem' && mem'[free'[k]] == NextRef(free', k)
    {
      if k > 0 {
        assert free'[k] == free[k - 1] && mem[free[k - 1]] == NextRef(free, k - 1);
        SlotPast(p, size, free[k - 1]);
      }
    }
  }

  lemma GivenSlab(mem: Memory, p: nat, sl: Slab, a: nat)
    requires SlabOk(mem, p, sl) && SlotAt(p, sl.size, a) && a in mem && a !in sl.free
    ensures SlabOk(GivenMem(mem, p, a), p, sl.(free := [a] + sl.free))
  {
    hide IsClass, SlotAt, PageIn, WithFreeCount, TotalCount, FreeListOk;
    FreeBound(mem, p, sl);
    WithCount(mem[p + 8], |sl.free| + 1);
    GivenFree(mem, p, sl.size, sl.free, a);
    PageStays(mem, GivenMem(mem, p, a), p);
    SlotPast(p, sl.size, a);
  }

  lemma FreeBound(mem: Memory, p: nat, sl: Slab)
    requires SlabOk(mem, p, sl)
    ensures |sl.free| <= PAGE_SIZE
  {
    hide IsClass, SlotAt, Base;
    forall k | 0 <= k < |sl.free| ensures p <= sl.free[k] < p + PAGE_SIZE {
      SlotPast(p, sl.size, sl.free[k]);
    }
    Pigeons(sl.free, p, PAGE_SIZE);
  }

  lemma GivenLive(s: State, a: nat)
    requires HeapOk(s) && SlotLive(s.slabs, a)
    ensures ghost var p := Base(a); ghost var sl := s.slabs[p];
      LiveOk(s.slabs[p := sl.(free := [a] + sl.free)], s.larges, s.live - {a})
  {
    hide Base, IsClass, SlotAt, PageIn, ListsOk, Magic, ObjSize, FreeCount, TotalCount;
    var p := Base(a);
    var sl := s.slabs[p];
    assert SlabOk(s.mem, p, sl);
    if a >= 16 && a - 16 in s.larges {
      assert LargeOk(s.mem, a - 16, s.larges[a - 16]);
      assert a - 16 in s.part;
      BaseIs(a - 16, a);
    }
    var slabs', live' := s.slabs[p := sl.(free := [a] + sl.free)], s.live - {a};
    forall b ensures Capacity(slabs', s.larges, b) == if b in live' then Some(live'[b]) else None {
      assert Capacity(s.slabs, s.larges, b) == if b in s.live then Some(s.live[b]) else None;
      assert b in [a] + sl.free <==> b == a || b in sl.free;
    }
  }

  lemma GivenRest(s: State, p: nat, a: nat)
    requires HeapOk(s) && p in s.slabs && IsClass(s.slabs[p].size) && SlotAt(p, s.slabs[p].size, a) && a in s.mem
    ensures p + 8 in s.mem && p + 16 in s.mem && Rest(s, GivenMem(s.mem, p, a), p)
  {
    hide Base, IsClass, SlotAt, FreeListOk, PageIn, WithFreeCount, FreeCount, TotalCount, PartOk, LiveOk;
    assert SlabOk(s.mem, p, s.slabs[p]);
    BaseIs(p, p + 8);
    BaseIs(p, p + 16);
    SlotPast(p, s.slabs[p].size, a);
    var w := s.mem[p + 16];
    RestStore(s, s.mem, p, a, w);
    RestStore(s, s.mem[a := w], p, p + 16, a);
    RestStore(s, s.mem[a := w][p + 16 := a], p, p + 8, WithFreeCount(s.mem[p + 8], FreeCount(s.mem[p + 8]) + 1));
  }

  /** Giving a slot back takes the block at a from the client, and nothing else from anyone. */
  lemma Given(s: State, a: nat)
    requires HeapOk(s) && SlotLive(s.slabs, a)
    ensures ghost var p := Base(a); ghost var sl := s.slabs[p];
      && a in s.live && a in s.mem && p + 8 in s.mem && p + 16 in s.mem
      && HeapOk(s.(mem := GivenMem(s.mem, p, a), slabs := s.slabs[p := sl.(free := [a] + sl.free)],
                   live := s.live - {a}))
  {
    hide Base, IsClass, SlotAt, Rest, ListsOk, LargesOk, PartOk, LiveOk, Magic, ObjSize, FreeCount, TotalCount;
    var p := Base(a);
    var sl := s.slabs[p];
    assert SlabOk(s.mem, p, sl);
    SlotPast(p, sl.size, a);
    assert a in s.live by { LiveSlot(s, a); }
    GivenRest(s, p, a);
    GivenSlab(s.mem, p, sl, a);
    GivenLive(s, a);
    SlabChanged(s, GivenMem(s.mem, p, a), p, sl.(free := [a] + sl.free), s.live - {a});
  }

  lemma LiveSlot(s: State, a: nat)
    requires HeapOk(s) && SlotLive(s.slabs, a)
    ensures a in s.live && s.live[a] == s.slabs[Base(a)].size
  {
    hide SlotLive;
    assert Capacity(s.slabs, s.larges, a) == if a in s.live then Some(s.live[a]) else None;
  }

  lemma GivenBlocks(s: State, p: nat, a: nat)
    requires HeapOk(s) && p in s.slabs && a in s.live && s.live[a] > 0 && p + 8 in s.mem && p + 16 in s.mem
    ensures forall b :: b in s.live && b != a ==>
      Words(GivenMem(s.mem, p, a), b, s.live[b] / 8) == Words(s.mem, b, s.live[b] / 8)
  {
    hide HeapOk, Words;
    forall b | b in s.live && b != a
      ensures Words(GivenMem(s.mem, p, a), b, s.live[b] / 8) == Words(s.mem, b, s.live[b] / 8)
    {
      HeaderHolder(s, p, p + 8);
      HeaderHolder(s, p, p + 16);
      HeldWord(s, a, a);
      WordsKept(s, GivenMem(s.mem, p, a), b);
    }
  }

  /** mem' backs more pages, up to next', and keeps the words there were. */
  ghost predicate Extends(s: State, mem': Memory, next': nat)
  {
    && s.next <= next' && next' % PAGE_SIZE == 0
    && (forall x :: x in s.mem ==> x in mem' && mem'[x] == s.mem[x])
    && (forall x :: x in mem' && x !in s.mem ==> s.next <= x < next')
  }

  /** A slab depends on its own page alone, and there not on its links. */
  lemma SlabSame(mem: Memory, mem': Memory, p: nat, sl: Slab)
    requires SlabOk(mem, p, sl) && p + 24 in mem' && p + 32 in mem'
    requires forall x :: x in mem && p <= x < p + PAGE_SIZE && x != p + 24 && x != p + 32 ==>
      x in mem' && mem'[x] == mem[x]
    ensures SlabOk(mem', p, sl)
  {
    hide IsClass, SlotAt, Magic, ObjSize, FreeCount, TotalCount;
    forall k | 0 <= k < |sl.free| ensures sl.free[k] in mem' && mem'[sl.free[k]] == NextRef(sl.free, k) {
      assert mem[sl.free[k]] == NextRef(sl.free, k);
      SlotPast(p, sl.size, sl.free[k]);
    }
  }

  /** Backing more pages changes no block; it is all a failed large request does. */
  lemma Extended(s: State, mem': Memory, next': nat)
    requires HeapOk(s) && Extends(s, mem', next')
    ensures HeapOk(s.(mem := mem', next := next'))
    ensures Blocks(s.(mem := mem', next := next')) == Blocks(s)
  {
    hide IsClass, SlotAt, LiveOk, FreeListOk, Base, Magic, ObjSize, FreeCount, TotalCount;
    forall p | p in s.slabs ensures SlabOk(mem', p, s.slabs[p]) {
      SlabSame(s.mem, mem', p, s.slabs[p]);
    }
    forall c | 0 <= c < |SIZES| ensures ListOk(mem', s.heads[c], s.lists[c], s.slabs, SIZES[c]) {
      assert ListOk(s.mem, s.heads[c], s.lists[c], s.slabs, SIZES[c]);
      ListSame(s.mem, mem', s.heads[c], s.lists[c], s.slabs, SIZES[c]);
    }
    forall b | b in s.larges ensures LargeOk(mem', b, s.larges[b]) {
      assert LargeOk(s.mem, b, s.larges[b]);
    }
    forall a | a in s.live ensures Words(mem', a, s.live[a] / 8) == Words(s.mem, a, s.live[a] / 8) {
      ExtendedWords(s, mem', next', a);
    }
  }

  lemma ExtendedWords(s: State, mem': Memory, next': nat, a: nat)
    requires HeapOk(s) && Extends(s, mem', next') && a in s.live
    ensures Words(mem', a, s.live[a] / 8) == Words(s.mem, a, s.live[a] / 8)
  {
    hide HeapOk, Extends, Base, HolderOf;
    forall i | 0 <= i < s.live[a] / 8 ensures Get(mem', a + 8 * i) == Get(s.mem, a + 8 * i) {
      WordThere(s, a, i);
      assert Extends(s, mem', next');
      ExtendedWord(s, mem', next', a + 8 * i);
    }
  }

  lemma ExtendedWord(s: State, mem': Memory, next': nat, x: nat)
    requires Extends(s, mem', next') && x in s.mem
    ensures Get(mem', x) == Get(s.mem, x)
  {}

  lemma WordAt(a: nat, i: nat, n: nat)
    requires a % 16 == 0 && i < n / 8
    ensures (a + 8 * i) % 8 == 0 && a + 8 * i < a + n
  {}

  /** The words of a block are in memory. */
  lemma WordThere(s: State, a: nat, i: nat)
    requires HeapOk(s) && a in s.live && i < s.live[a] / 8
    ensures a + 8 * i in s.mem
  {
    hide HeapOk;
    BlockAligned(s, a);
    WordAt(a, i, s.live[a]);
    WordIn(s, a, a + 8 * i);
  }

  lemma WordIn(s: State, a: nat, x: nat)
    requires HeapOk(s) && a in s.live && a <= x < a + s.live[a] && x % 8 == 0
    ensures x in s.mem
  {
    hide Base, IsClass, SlotAt, FreeListOk, ListsOk, Magic, ObjSize, FreeCount, TotalCount;
    assert Capacity(s.slabs, s.larges, a) == Some(s.live[a]);
    if SlotLive(s.slabs, a) {
      assert SlabOk(s.mem, Base(a), s.slabs[Base(a)]);
      SlotPast(Base(a), s.slabs[Base(a)].size, a);
    } else {
      assert LargeOk(s.mem, a - 16, s.larges[a - 16]);
    }
  }

  lemma ListSame(mem: Memory, mem': Memory, head: nat, l: seq<nat>, slabs: map<nat, Slab>, size: nat)
    requires ListOk(mem, head, l, slabs, size)
    requires forall p :: p in l ==>
      p + 24 in mem' && p + 32 in mem' && mem'[p + 24] == mem[p + 24] && mem'[p + 32] == mem[p + 32]
    ensures ListOk(mem', head, l, slabs, size)
  {
    forall i | 0 <= i < |l| ensures mem'[l[i] + 24] == NextRef(l, i) && mem'[l[i] + 32] == PrevRef(l, i) {
      assert mem[l[i] + 24] == NextRef(l, i) && mem[l[i] + 32] == PrevRef(l, i);
    }
  }

  /** The address of slot k. */
  function Slot(p: nat, size: nat, k: nat): nat
  {
    p + SLAB_HDR + k * size
  }

  /** The slots of a fresh slab, in address order. */
  ghost function AllSlots(p: nat, size: nat): seq<nat>
    requires IsClass(size)
  {
    seq(Slots(size), i requires 0 <= i => Slot(p, size, i))
  }

  lemma SlotIndex(p: nat, size: nat, a: nat)
    requires IsClass(size) && SlotAt(p, size, a)
    ensures a in AllSlots(p, size)
  {
    var i := (a - p - SLAB_HDR) / size;
    assert i * size == a - p - SLAB_HDR;
    SlotCount(size, i);
    assert AllSlots(p, size)[i] == a;
  }

  lemma SlotMod(size: nat, i: nat)
    requires size > 0
    ensures (i * size) % size == 0
  {
    ModIs(i * size, i, size, 0);
  }

  lemma SlotPlace(p: nat, size: nat, i: nat)
    requires IsClass(size) && i < Slots(size)
    ensures SlotAt(p, size, Slot(p, size, i))
  {
    SlotCount(size, i);
    SlotMod(size, i);
  }

  lemma SlotOrder(p: nat, size: nat, i: nat, j: nat)
    requires IsClass(size) && i < j
    ensures Slot(p, size, i) + size <= Slot(p, size, j) && Slot(p, size, i) < Slot(p, size, j)
  {
    assert (j - i) * size >= size;
  }

  lemma SlotCount(size: nat, i: nat)
    requires IsClass(size)
    ensures i < Slots(size) <==> i * size + size <= PAGE_SIZE - SLAB_HDR
  {
    if size == 16 {} else if size == 32 {} else if size == 64 {} else if size == 128 {}
    else if size == 256 {} else if size == 512 {} else {}
  }

  /** A free page past everything that is in use. */
  ghost predicate Unused(s: State, p: nat)
  {
    p % PAGE_SIZE == 0 && p > 0 && p + PAGE_SIZE <= s.next && p !in s.slabs && p !in s.part
  }

  /** Memory after the slab at p is put in front of the list that starts at head. */
  function LinkedMem(mem: Memory, p: nat, head: nat): Memory
  {
    var mem1 := mem[p + 24 := head];
    if head != 0 then mem1[head + 32 := p] else mem1
  }

  lemma LinkedOld(s: State, p: nat, head: nat, q: nat)
    requires HeapOk(s) && Unused(s, p) && (head == 0 || head in s.slabs) && p + 24 in s.mem && q in s.slabs
    ensures SlabOk(LinkedMem(s.mem, p, head), q, s.slabs[q])
  {
    hide Base, IsClass, SlotAt, FreeListOk, PageIn, ListsOk, LargesOk, LiveOk, Magic, ObjSize, FreeCount, TotalCount;
    assert SlabOk(s.mem, q, s.slabs[q]);
    BaseIs(p, p + 24);
    var mem1 := s.mem[p + 24 := head];
    SlabElsewhere(s.mem, q, s.slabs[q], p + 24, head);
    if head == q {
      SlabSame(mem1, mem1[head + 32 := p], q, s.slabs[q]);
    } else if head != 0 {
      assert SlabOk(s.mem, head, s.slabs[head]);
      BaseIs(head, head + 32);
      SlabElsewhere(mem1, q, s.slabs[q], head + 32, p);
    }
  }

  lemma LinkedNew(s: State, p: nat, head: nat, sl: Slab)
    requires HeapOk(s) && Unused(s, p) && (head == 0 || head in s.slabs) && SlabOk(s.mem, p, sl)
    ensures SlabOk(LinkedMem(s.mem, p, head), p, sl)
  {
    hide Base, IsClass, SlotAt, FreeListOk, PageIn, ListsOk, LargesOk, LiveOk, Magic, ObjSize, FreeCount, TotalCount;
    var mem1 := s.mem[p + 24 := head];
    SlabSame(s.mem, mem1, p, sl);
    if head != 0 {
      assert SlabOk(s.mem, head, s.slabs[head]);
      BaseIs(head, head + 32);
      SlabElsewhere(mem1, p, sl, head + 32, p);
    }
  }

  lemma LinkedLarges(s: State, p: nat, head: nat)
    requires HeapOk(s) && Unused(s, p) && (head == 0 || head in s.slabs) && p + 24 in s.mem
    ensures LargesOk(LinkedMem(s.mem, p, head), s.larges)
  {
    hide Base, IsClass, SlotAt, FreeListOk, PageIn, ListsOk, LiveOk, Magic, ObjSize, FreeCount, TotalCount;
    BaseIs(p, p + 24);
    if head != 0 {
      assert SlabOk(s.mem, head, s.slabs[head]);
      BaseIs(head, head + 32);
    }
    forall b | b in s.larges
      ensures b != p + 24 && b + 8 != p + 24 && (head != 0 ==> b != head + 32 && b + 8 != head + 32)
    {
      assert LargeOk(s.mem, b, s.larges[b]);
      assert b in s.part;
      BaseIs(b, b);
      BaseIs(b, b + 8);
    }
    LargesWrite(s.mem, s.larges, p + 24, head);
    if head != 0 {
      LargesWrite(s.mem[p + 24 := head], s.larges, head + 32, p);
    }
  }

  /** Slab pages are page-aligned and not NULL. */
  ghost predicate PagesOk(slabs: map<nat, Slab>)
  {
    forall q {:trigger q in slabs} :: q in slabs ==> q % PAGE_SIZE == 0 && q > 0
  }

  /** No next link of these pages is a prev link. */
  ghost predicate LinksApart(l: seq<nat>)
  {
    forall i, j :: 0 <= i < |l| && 0 <= j < |l| ==> l[i] + 24 != l[j] + 32
  }

  /** The class list with the new slab in front. */
  lemma LinkedList(mem: Memory, l: seq<nat>, slabs: map<nat, Slab>, p: nat, sl: Slab)
    requires ListOk(mem, RefAt(l, 0), l, slabs, sl.size) && LinksApart([p] + l) && 0 !in l
    requires p !in slabs && p + 24 in mem && p + 32 in mem && mem[p + 32] == 0
    ensures ListOk(LinkedMem(mem, p, RefAt(l, 0)), p, [p] + l, slabs[p := sl], sl.size)
  {
    hide LinkedMem, LinksApart, Lists.Distinct, NextRef, PrevRef, RefAt;
    var l', mem' := [p] + l, LinkedMem(mem, p, RefAt(l, 0));
    PushDistinct(p, l);
    FirstRef(p, l);
    forall i: nat | i < |l'| ensures l'[i] + 24 in mem' && mem'[l'[i] + 24] == NextRef(l', i)
                             ensures l'[i] + 32 in mem' && mem'[l'[i] + 32] == PrevRef(l', i) {
      LinkedNode(mem, l, slabs, p, sl, i);
    }
    forall i | 0 <= i < |l'| ensures l'[i] in slabs[p := sl] && slabs[p := sl][l'[i]].size == sl.size {
      if i > 0 { assert l'[i] == l[i - 1]; }
    }
  }

  lemma FirstRef(p: nat, l: seq<nat>)
    ensures RefAt([p] + l, 0) == p
  {}

  lemma PushDistinct(p: nat, l: seq<nat>)
    requires Lists.Distinct(l) && p !in l
    ensures Lists.Distinct([p] + l) && (forall q :: q in [p] + l <==> q == p || q in l)
  {}

  lemma LinkedNode(mem: Memory, l: seq<nat>, slabs: map<nat, Slab>, p: nat, sl: Slab, i: nat)
    requires ListOk(mem, RefAt(l, 0), l, slabs, sl.size) && LinksApart([p] + l) && 0 !in l
    requires p !in slabs && p + 24 in mem && p + 32 in mem && mem[p + 32] == 0 && i <= |l|
    ensures var l', mem' := [p] + l, LinkedMem(mem, p, RefAt(l, 0));
      && l'[i] + 24 in mem' && mem'[l'[i] + 24] == NextRef(l', i)
      && l'[i] + 32 in mem' && mem'[l'[i] + 32] == PrevRef(l', i)
  {
    var l' := [p] + l;
    if i > 0 {
      assert l'[i] == l[i - 1];
      assert mem[l[i - 1] + 24] == NextRef(l, i - 1) && mem[l[i - 1] + 32] == PrevRef(l, i - 1);
      assert l'[i] + 24 != l'[1] + 32 && l'[0] + 24 != l'[i] + 32;
    } else if |l| > 0 {
      assert l'[0] + 24 != l'[1] + 32;
    }
  }

  /** Links of pages are 24 and 32 bytes in, so no next link is a prev link. */
  lemma FarLinks(p: nat, q: nat)
    requires p % PAGE_SIZE == 0 && q % PAGE_SIZE == 0
    ensures p + 24 != q + 32 && q + 24 != p + 32
  {}

  /** The other lists do not notice. */
  lemma LinkedOther(mem: Memory, head: nat, hd: nat, l: seq<nat>, slabs: map<nat, Slab>, p: nat, sl: Slab, size: nat)
    requires ListOk(mem, hd, l, slabs, size) && PagesOk(slabs) && sl.size != size
    requires p !in slabs && p % PAGE_SIZE == 0 && (head == 0 || (head in slabs && slabs[head].size == sl.size))
    ensures ListOk(LinkedMem(mem, p, head), hd, l, slabs[p := sl], size)
  {
    var mem' := LinkedMem(mem, p, head);
    forall q | q in l
      ensures q + 24 in mem' && q + 32 in mem' && mem'[q + 24] == mem[q + 24] && mem'[q + 32] == mem[q + 32]
    {
      FarLinks(p, q);
      FarLinks(head, q);
    }
    ListSame(mem, mem', hd, l, slabs, size);
  }

  lemma LinkedLists(s: State, p: nat, c: nat, sl: Slab)
    requires HeapOk(s) && Unused(s, p) && c < |SIZES| && sl.size == SIZES[c]
    requires p + 24 in s.mem && p + 32 in s.mem && s.mem[p + 32] == 0
    ensures ListsOk(LinkedMem(s.mem, p, s.heads[c]), s.heads[c := p], s.lists[c := [p] + s.lists[c]], s.slabs[p := sl])
  {
    hide Base, IsClass, SlotAt, FreeListOk, PageIn, LargesOk, LiveOk, ListOk, LinkedMem;
    hide Magic, ObjSize, FreeCount, TotalCount;
    assert PagesOk(s.slabs);
    var heads', lists' := s.heads[c := p], s.lists[c := [p] + s.lists[c]];
    HeadOk(s, c);
    forall d | 0 <= d < |SIZES|
      ensures ListOk(LinkedMem(s.mem, p, s.heads[c]), heads'[d], lists'[d], s.slabs[p := sl], SIZES[d])
    {
      assert ListOk(s.mem, s.heads[d], s.lists[d], s.slabs, SIZES[d]);
      if d == c {
        assert LinksApart([p] + s.lists[c]) && 0 !in s.lists[c] by { PagesLink(s, p, c); }
        LinkedList(s.mem, s.lists[c], s.slabs, p, sl);
      } else {
        SizesDiffer(c, d);
        LinkedOther(s.mem, s.heads[c], s.heads[d], s.lists[d], s.slabs, p, sl, SIZES[d]);
      }
    }
  }

  lemma PagesLink(s: State, p: nat, c: nat)
    requires PagesOk(s.slabs) && c < |s.lists| && c < |SIZES| && p % PAGE_SIZE == 0
    requires forall i :: 0 <= i < |s.lists[c]| ==> s.lists[c][i] in s.slabs
    ensures LinksApart([p] + s.lists[c]) && 0 !in s.lists[c]
  {
    var l := [p] + s.lists[c];
    forall i, j | 0 <= i < |l| && 0 <= j < |l| ensures l[i] + 24 != l[j] + 32 {
      FarLinks(l[i], l[j]);
    }
  }

  lemma SizesDiffer(c: nat, d: nat)
    requires c < |SIZES| && d < |SIZES| && c != d
    ensures SIZES[c] != SIZES[d]
  {}

  lemma HeadOk(s: State, c: nat)
    requires HeapOk(s) && c < |SIZES|
    ensures |s.heads| == |SIZES| && |s.lists| == |SIZES|
    ensures ListOk(s.mem, s.heads[c], s.lists[c], s.slabs, SIZES[c]) && s.heads[c] == RefAt(s.lists[c], 0)
    ensures forall i :: 0 <= i < |s.lists[c]| ==> s.lists[c][i] in s.slabs
    ensures s.heads[c] == 0 || (s.heads[c] in s.slabs && s.slabs[s.heads[c]].size == SIZES[c])
  {
    hide SlabsOk, LargesOk, PartOk, BelowOk, LiveOk;
    assert ListOk(s.mem, s.heads[c], s.lists[c], s.slabs, SIZES[c]);
  }

  lemma NewLive(slabs: map<nat, Slab>, larges: map<nat, nat>, live: map<nat, nat>, p: nat, size: nat)
    requires LiveOk(slabs, larges, live) && p !in slabs && IsClass(size)
    ensures LiveOk(slabs[p := Slab(size, AllSlots(p, size))], larges, live)
  {
    hide Base, IsClass, SlotAt, AllSlots;
    var slabs' := slabs[p := Slab(size, AllSlots(p, size))];
    forall a ensures Capacity(slabs', larges, a) == if a in live then Some(live[a]) else None {
      assert Capacity(slabs, larges, a) == if a in live then Some(live[a]) else None;
      if SlotAt(p, size, a) { SlotIndex(p, size, a); }
    }
  }

  /** A slab of class c with every slot free. */
  ghost function FreshSlab(p: nat, c: nat): (sl: Slab)
    requires c < |SIZES|
    ensures sl.size == SIZES[c] && |sl.free| > 0
  {
    Slab(SIZES[c], AllSlots(p, SIZES[c]))
  }

  lemma ClassSize(c: nat)
    requires c < |SIZES|
    ensures IsClass(SIZES[c])
  {}

  /** A new slab on its list: no block has changed, and more slots are free. */
  lemma SlabAdded(s: State, p: nat, c: nat)
    requires HeapOk(s) && Unused(s, p) && c < |SIZES| && SlabOk(s.mem, p, FreshSlab(p, c)) && s.mem[p + 32] == 0
    ensures HeapOk(s.(mem := LinkedMem(s.mem, p, s.heads[c]), heads := s.heads[c := p],
                      slabs := s.slabs[p := FreshSlab(p, c)], lists := s.lists[c := [p] + s.lists[c]]))
  {
    hide Base, IsClass, SlotAt, AllSlots, SlabOk, SlabsOk, ListsOk, ListOk, LargesOk, LiveOk, LinkedMem;
    HeadOk(s, c);
    ClassSize(c);
    var sl := FreshSlab(p, c);
    LinksThere(s.mem, p, sl);
    LinkedLists(s, p, c, sl);
    LinkedLarges(s, p, s.heads[c]);
    NewLive(s.slabs, s.larges, s.live, p, SIZES[c]);
    LinkedSlabs(s, p, s.heads[c], sl);
    LinkedKeys(s, p, s.heads[c]);
    assert forall x :: x in LinkedMem(s.mem, p, s.heads[c]) ==> x in s.mem;
  }

  lemma LinksThere(mem: Memory, p: nat, sl: Slab)
    requires SlabOk(mem, p, sl)
    ensures p + 24 in mem && p + 32 in mem
  {}

  lemma LinkedSlabs(s: State, p: nat, head: nat, sl: Slab)
    requires HeapOk(s) && Unused(s, p) && (head == 0 || head in s.slabs) && SlabOk(s.mem, p, sl)
    ensures SlabsOk(LinkedMem(s.mem, p, head), s.slabs[p := sl])
  {
    hide HeapOk, SlabOk, LinkedMem;
    LinksThere(s.mem, p, sl);
    LinkedNew(s, p, head, sl);
    forall q | q in s.slabs ensures SlabOk(LinkedMem(s.mem, p, head), q, s.slabs[q]) {
      LinkedOld(s, p, head, q);
    }
  }

  lemma LinkedKeys(s: State, p: nat, head: nat)
    requires HeapOk(s) && p + 24 in s.mem && (head == 0 || head in s.slabs)
    ensures LinkedMem(s.mem, p, head).Keys == s.mem.Keys
  {
    if head != 0 { assert SlabOk(s.mem, head, s.slabs[head]); }
  }

  /** Links lie in headers, and show in no block. */
  lemma LinkedBlocks(s: State, p: nat, head: nat)
    requires HeapOk(s) && Unused(s, p) && (head == 0 || head in s.slabs)
    ensures forall a :: a in s.live ==>
      Words(LinkedMem(s.mem, p, head), a, s.live[a] / 8) == Words(s.mem, a, s.live[a] / 8)
  {
    hide HeapOk, Words, HolderOf;
    forall a | a in s.live
      ensures Words(LinkedMem(s.mem, p, head), a, s.live[a] / 8) == Words(s.mem, a, s.live[a] / 8)
    {
      UnusedHolder(s, p, p + 24);
      if head != 0 { HeaderHolder(s, head, head + 32); }
      WordsKept(s, LinkedMem(s.mem, p, head), a);
    }
  }

  lemma UnusedHolder(s: State, p: nat, x: nat)
    requires Unused(s, p) && p <= x < p + PAGE_SIZE
    ensures HolderOf(s, x) == None
  {
    hide Base;
    BaseIs(p, x);
  }

  /** Everything in use ends at or below b. */
  ghost predicate EndsBy(s: State, b: nat)
  {
    && (forall p :: p in s.slabs ==> p + PAGE_SIZE <= b)
    && (forall q :: q in s.part ==> q + PAGE_SIZE <= b)
    && (forall q :: q in s.larges ==> q + s.larges[q] * PAGE_SIZE <= b)
  }

  ghost function PagesOf(b: nat, n: nat): set<nat>
  {
    set q {:trigger q % PAGE_SIZE} | b <= q < b + n * PAGE_SIZE && q % PAGE_SIZE == 0
  }

  ghost function PartWith(part: map<nat, nat>, b: nat, n: nat): map<nat, nat>
  {
    part + map q | q in PagesOf(b, n) :: b
  }

  lemma AddedPart(s: State, b: nat, n: nat)
    requires HeapOk(s) && EndsBy(s, b) && n > 0
    ensures PartOk(s.slabs, s.larges[b := n], PartWith(s.part, b, n))
  {
    hide SlabsOk, ListsOk, LiveOk, LargesOk, BelowOk, PagesOf;
    var larges', part' := s.larges[b := n], PartWith(s.part, b, n);
    forall c, q | c in larges' && c <= q < c + larges'[c] * PAGE_SIZE && q % PAGE_SIZE == 0
      ensures q in part' && part'[q] == c
    {
      InPagesOf(b, n, q);
      if c != b { assert q in s.part && q !in PagesOf(b, n); }
    }
    forall q | q in part' ensures q !in s.slabs && part'[q] in larges' {
      InPagesOf(b, n, q);
      if q !in PagesOf(b, n) { assert q in s.part && s.part[q] in s.larges; }
    }
  }

  lemma InPagesOf(b: nat, n: nat, q: nat)
    ensures q in PagesOf(b, n) <==> b <= q < b + n * PAGE_SIZE && q % PAGE_SIZE == 0
  {}

  lemma AddedLive(s: State, b: nat, n: nat)
    requires HeapOk(s) && EndsBy(s, b) && b % PAGE_SIZE == 0 && n > 0
    ensures b + 16 !in s.live && b !in s.larges && LiveOk(s.slabs, s.larges[b := n], s.live[b + 16 := Room(n)])
  {
    hide SlabsOk, ListsOk, Base, IsClass, SlotAt;
    BaseIs(b, b + 16);
    assert b in s.larges ==> LargeOk(s.mem, b, s.larges[b]);
    assert Capacity(s.slabs, s.larges, b + 16) == None;
    var larges', live' := s.larges[b := n], s.live[b + 16 := Room(n)];
    forall a: nat ensures Capacity(s.slabs, larges', a) == if a in live' then Some(live'[a]) else None {
      assert Capacity(s.slabs, s.larges, a) == if a in s.live then Some(s.live[a]) else None;
    }
  }

  /** A large block over fresh pages. */
  lemma LargeAdded(s: State, b: nat, n: nat)
    requires HeapOk(s) && EndsBy(s, b) && LargeOk(s.mem, b, n) && b + n * PAGE_SIZE <= s.next
    ensures b + 16 !in s.live
    ensures HeapOk(s.(larges := s.larges[b := n], part := PartWith(s.part, b, n), live := s.live[b + 16 := Room(n)]))
  {
    hide SlabsOk, ListsOk, LiveOk, PartOk, PartWith;
    AddedPart(s, b, n);
    AddedLive(s, b, n);
    forall q | q in PartWith(s.part, b, n) ensures q + PAGE_SIZE <= s.next { PartEnds(s, b, n, q); }
  }

  lemma PartEnds(s: State, b: nat, n: nat, q: nat)
    requires BelowOk(s) && b % PAGE_SIZE == 0 && b + n * PAGE_SIZE <= s.next && q in PartWith(s.part, b, n)
    ensures q + PAGE_SIZE <= s.next
  {}

  ghost predicate InRange(b: nat, n: nat, x: nat)
  {
    b <= x < b + n * PAGE_SIZE
  }

  /** Memory without the n pages at b. */
  ghost function Unmapped(mem: Memory, b: nat, n: nat): Memory
  {
    map x | x in mem && !InRange(b, n, x) :: mem[x]
  }

  ghost function PartWithout(part: map<nat, nat>, b: nat): map<nat, nat>
  {
    map q | q in part && part[q] != b :: part[q]
  }

  /** No word of another page or block is unmapped. */
  lemma RemovedPage(s: State, b: nat, p: nat, x: nat)
    requires HeapOk(s) && b in s.larges && p % PAGE_SIZE == 0 && p <= x < p + PAGE_SIZE
    requires p in s.part ==> s.part[p] != b
    ensures !InRange(b, s.larges[b], x)
  {
    hide SlabsOk, ListsOk, LiveOk, Base;
    assert LargeOk(s.mem, b, s.larges[b]);
    if b <= x < b + s.larges[b] * PAGE_SIZE {
      BaseIs(p, x);
      BaseWithin(b, s.larges[b], x);
    }
  }

  lemma RemovedSlabs(s: State, b: nat)
    requires HeapOk(s) && b in s.larges
    ensures SlabsOk(Unmapped(s.mem, b, s.larges[b]), s.slabs)
  {
    hide ListsOk, LiveOk, LargesOk, Base, IsClass, SlotAt, FreeListOk, PageIn, Magic, ObjSize, FreeCount;
    hide TotalCount, InRange;
    var mem' := Unmapped(s.mem, b, s.larges[b]);
    forall p | p in s.slabs ensures SlabOk(mem', p, s.slabs[p]) {
      assert SlabOk(s.mem, p, s.slabs[p]);
      forall x: nat | p <= x < p + PAGE_SIZE ensures !InRange(b, s.larges[b], x) { RemovedPage(s, b, p, x); }
      assert !InRange(b, s.larges[b], p + 24) && !InRange(b, s.larges[b], p + 32);
      SlabSame(s.mem, mem', p, s.slabs[p]);
    }
  }

  lemma RemovedLists(s: State, b: nat)
    requires HeapOk(s) && b in s.larges
    ensures ListsOk(Unmapped(s.mem, b, s.larges[b]), s.heads, s.lists, s.slabs)
  {
    hide LiveOk, LargesOk, Base, IsClass, SlotAt, FreeListOk, PageIn, Magic, ObjSize, FreeCount, TotalCount;
    var mem' := Unmapped(s.mem, b, s.larges[b]);
    forall c | 0 <= c < |SIZES| ensures ListOk(mem', s.heads[c], s.lists[c], s.slabs, SIZES[c]) {
      assert ListOk(s.mem, s.heads[c], s.lists[c], s.slabs, SIZES[c]);
      forall p | p in s.lists[c]
        ensures p + 24 in mem' && p + 32 in mem' && mem'[p + 24] == s.mem[p + 24] && mem'[p + 32] == s.mem[p + 32]
      {
        assert SlabOk(s.mem, p, s.slabs[p]);
        RemovedPage(s, b, p, p + 24);
        RemovedPage(s, b, p, p + 32);
      }
      ListSame(s.mem, mem', s.heads[c], s.lists[c], s.slabs, SIZES[c]);
    }
  }

  lemma RemovedPart(s: State, b: nat)
    requires HeapOk(s) && b in s.larges
    ensures PartOk(s.slabs, s.larges - {b}, PartWithout(s.part, b))
  {
    hide SlabsOk, ListsOk, LiveOk, LargesOk, BelowOk;
    var larges', part' := s.larges - {b}, PartWithout(s.part, b);
    forall q | q in part' ensures q !in s.slabs && part'[q] in larges' {
      assert q in s.part && s.part[q] in s.larges;
    }
    forall c, q | c in larges' && c <= q < c + larges'[c] * PAGE_SIZE && q % PAGE_SIZE == 0
      ensures q in part' && part'[q] == c
    {
      assert c in s.larges;
      assert q in s.part && s.part[q] == c;
    }
  }

  lemma RemovedLarges(s: State, b: nat)
    requires HeapOk(s) && b in s.larges
    ensures LargesOk(Unmapped(s.mem, b, s.larges[b]), s.larges - {b})
    ensures PartOk(s.slabs, s.larges - {b}, PartWithout(s.part, b))
  {
    RemovedPart(s, b);
    hide SlabsOk, ListsOk, LiveOk, Base, BelowOk, PartWithout;
    var mem' := Unmapped(s.mem, b, s.larges[b]);
    forall c | c in s.larges && c != b ensures LargeOk(mem', c, s.larges[c]) {
      assert LargeOk(s.mem, c, s.larges[c]);
      forall x: nat | InRange(c, s.larges[c], x) ensures !InRange(b, s.larges[b], x) {
        BaseWithin(c, s.larges[c], x);
        assert Base(x) in s.part && s.part[Base(x)] == c;
        BaseSpan(x);
        RemovedPage(s, b, Base(x), x);
      }
    }
  }

  lemma BaseSpan(x: nat)
    ensures Base(x) % PAGE_SIZE == 0 && Base(x) <= x < Base(x) + PAGE_SIZE
  {}

  lemma RemovedLive(s: State, b: nat)
    requires HeapOk(s) && b in s.larges
    ensures LiveOk(s.slabs, s.larges - {b}, s.live - {b + 16})
  {
    hide SlabsOk, ListsOk, Base, IsClass, SlotAt;
    assert LargeOk(s.mem, b, s.larges[b]) && b in s.part;
    BaseIs(b, b + 16);
    var larges', live' := s.larges - {b}, s.live - {b + 16};
    forall a: nat ensures Capacity(s.slabs, larges', a) == if a in live' then Some(live'[a]) else None {
      assert Capacity(s.slabs, s.larges, a) == if a in s.live then Some(s.live[a]) else None;
    }
  }

  /** Unmapping a large block takes it from the client, and nothing else from anyone. */
  lemma LargeRemoved(s: State, b: nat)
    requires HeapOk(s) && b in s.larges
    ensures HeapOk(s.(mem := Unmapped(s.mem, b, s.larges[b]), larges := s.larges - {b},
                      part := PartWithout(s.part, b), live := s.live - {b + 16}))
  {
    hide SlabsOk, ListsOk, LiveOk, LargesOk, PartOk;
    RemovedSlabs(s, b);
    RemovedLists(s, b);
    RemovedLarges(s, b);
    RemovedLive(s, b);
  }

  lemma RemovedBlocks(s: State, b: nat)
    requires HeapOk(s) && b in s.larges
    ensures forall a :: a in s.live && a != b + 16 ==>
      Words(Unmapped(s.mem, b, s.larges[b]), a, s.live[a] / 8) == Words(s.mem, a, s.live[a] / 8)
  {
    hide HeapOk, Words, HolderOf;
    forall a | a in s.live && a != b + 16
      ensures Words(Unmapped(s.mem, b, s.larges[b]), a, s.live[a] / 8) == Words(s.mem, a, s.live[a] / 8)
    {
      forall x: nat | InRange(b, s.larges[b], x) ensures HolderOf(s, x) != Some(a) { LargeHolder(s, b, x); }
      WordsKept(s, Unmapped(s.mem, b, s.larges[b]), a);
    }
  }

  lemma LargeHolder(s: State, b: nat, x: nat)
    requires HeapOk(s) && b in s.larges && b <= x < b + s.larges[b] * PAGE_SIZE
    ensures HolderOf(s, x) == if x < b + 16 then None else Some(b + 16)
  {
    hide SlabsOk, ListsOk, LiveOk, Base;
    assert LargeOk(s.mem, b, s.larges[b]);
    BaseWithin(b, s.larges[b], x);
    assert Base(x) in s.part && s.part[Base(x)] == b;
  }
}
