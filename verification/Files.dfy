/** Files in memory: the bytes of a file lie in a heap block that is moved when it
    must grow. */
module Files {
  import opened Wrappers
  import opened HeapLayout
  import opened KernelHeap
  import Paging
  import Bytes = Words

  type byte = Paging.byte

  /** The size of the record that a file keeps in the heap. */
  const RECORD: nat := 24

  // ---- A heap block as bytes ----

  function BytesOf(ws: seq<nat>): (bs: seq<byte>)
    ensures |bs| == 8 * |ws|
  {
    seq(8 * |ws|, j requires 0 <= j < 8 * |ws| => Bytes.Le(ws[j / 8], 8)[j % 8])
  }

  function WithByte(w: nat, k: nat, b: byte): nat
    requires k < 8
  {
    Bytes.FromLe(Bytes.Le(w, 8)[k := b])
  }

  lemma PutByte(ws: seq<nat>, j: nat, b: byte)
    requires j < 8 * |ws|
    ensures BytesOf(Put(ws, j / 8, WithByte(ws[j / 8], j % 8, b))) == BytesOf(ws)[j := b]
  {
    var w := ws[j / 8];
    var s := Bytes.Le(w, 8)[j % 8 := b];
    Bytes.FromLeRoundTrip(s);
    var ws' := Put(ws, j / 8, WithByte(w, j % 8, b));
    forall i | 0 <= i < 8 * |ws| ensures BytesOf(ws')[i] == BytesOf(ws)[j := b][i] {
      if i / 8 == j / 8 {
        assert i == 8 * (i / 8) + i % 8 && j == 8 * (j / 8) + j % 8;
        assert BytesOf(ws')[i] == s[i % 8];
      }
    }
  }

  lemma BytesPrefix(a: seq<nat>, b: seq<nat>)
    requires a <= b
    ensures BytesOf(a) <= BytesOf(b)
  {}

  ghost function BytesAt(s: State, a: nat): seq<byte>
  {
    if a in Blocks(s) then BytesOf(Blocks(s)[a]) else []
  }

  /** Every block but the one at a stands with its contents. */
  ghost predicate OthersStand(b: map<nat, seq<nat>>, b': map<nat, seq<nat>>, a: nat)
  {
    forall x :: x in b && x != a ==> x in b' && b'[x] == b[x]
  }

  /** s with bs in the place of what was at off. */
  function Splice(s: seq<byte>, off: nat, bs: seq<byte>): seq<byte>
    requires off + |bs| <= |s|
  {
    s[..off] + bs + s[off + |bs|..]
  }

  lemma SpliceNext(s: seq<byte>, off: nat, bs: seq<byte>, k: nat)
    requires k < |bs| && off + |bs| <= |s|
    ensures Splice(s, off, bs[..k])[off + k := bs[k]] == Splice(s, off, bs[..k + 1])
  {}

  method StoreByte(heap: Heap, ptr: nat, j: nat, b: byte)
    requires heap.Valid() && ptr in heap.st.live && j < heap.st.live[ptr]
    modifies heap
    ensures heap.Valid() && heap.st.live == old(heap.st.live) && heap.st.slabs == old(heap.st.slabs)
    ensures OthersStand(old(Blocks(heap.st)), Blocks(heap.st), ptr)
    ensures j < |old(BytesAt(heap.st, ptr))| && BytesAt(heap.st, ptr) == old(BytesAt(heap.st, ptr))[j := b]
  {
    hide HeapOk, Blocks, BytesOf, WithByte;
    BlockCovers(heap.st, ptr);
    var i := j / 8;
    WordThere(heap.st, ptr, i);
    WordRead(heap.st, ptr, i);
    PutByte(Blocks(heap.st)[ptr], j, b);
    heap.Store(ptr, i, WithByte(heap.mem[ptr + 8 * i], j % 8, b));
  }

  /** memcpy into a block. */
  method StoreBytes(heap: Heap, ptr: nat, off: nat, bs: seq<byte>)
    requires heap.Valid() && ptr in heap.st.live && off + |bs| <= heap.st.live[ptr]
    modifies heap
    ensures heap.Valid() && heap.st.live == old(heap.st.live) && heap.st.slabs == old(heap.st.slabs)
    ensures OthersStand(old(Blocks(heap.st)), Blocks(heap.st), ptr)
    ensures |old(BytesAt(heap.st, ptr))| == heap.st.live[ptr]
    ensures BytesAt(heap.st, ptr) == Splice(old(BytesAt(heap.st, ptr)), off, bs)
  {
    hide HeapOk, Blocks, BytesOf;
    BlockCovers(heap.st, ptr);
    ghost var was := BytesAt(heap.st, ptr);
    assert Splice(was, off, bs[..0]) == was;
    for k := 0 to |bs|
      invariant heap.Valid() && heap.st.live == old(heap.st.live) && heap.st.slabs == old(heap.st.slabs)
      invariant OthersStand(old(Blocks(heap.st)), Blocks(heap.st), ptr)
      invariant BytesAt(heap.st, ptr) == Splice(was, off, bs[..k])
    {
      SpliceNext(was, off, bs, k);
      StoreByte(heap, ptr, off + k, bs[k]);
    }
    assert bs[..|bs|] == bs;
  }

  lemma BytesCover(s: State, a: nat)
    requires HeapOk(s) && a in s.live
    ensures |BytesAt(s, a)| == s.live[a]
  {
    hide HeapOk, Blocks;
    BlockCovers(s, a);
  }

  lemma ByteRead(s: State, a: nat, j: nat)
    requires HeapOk(s) && a in s.live && j < s.live[a]
    ensures a + 8 * (j / 8) in s.mem && j < |BytesAt(s, a)|
    ensures BytesAt(s, a)[j] == Bytes.Le(s.mem[a + 8 * (j / 8)], 8)[j % 8]
  {
    hide HeapOk, Blocks;
    BlockCovers(s, a);
    WordThere(s, a, j / 8);
    WordRead(s, a, j / 8);
  }

  /** memcpy out of a block. */
  method LoadBytes(heap: Heap, ptr: nat, off: nat, n: nat) returns (bs: seq<byte>)
    requires heap.Valid() && ptr in heap.st.live && off + n <= heap.st.live[ptr]
    ensures |BytesAt(heap.st, ptr)| == heap.st.live[ptr] && bs == BytesAt(heap.st, ptr)[off..off + n]
  {
    hide HeapOk, Blocks, BytesOf, BytesAt;
    BytesCover(heap.st, ptr);
    bs := [];
    for k := 0 to n
      invariant |bs| == k && bs == BytesAt(heap.st, ptr)[off..off + k]
    {
      var j := off + k;
      ByteRead(heap.st, ptr, j);
      bs := bs + [Bytes.Le(heap.mem[ptr + 8 * (j / 8)], 8)[j % 8]];
    }
  }

  /** A block whose first size bytes are zero, or NULL. */
  method KZalloc(heap: Heap, size: nat, backing: Backing) returns (r: nat)
    requires heap.Valid() && size < 0x1_0000_0000
    modifies heap
    ensures heap.Valid() && (r == 0 <==> size == 0 || !Servable(old(heap.st), size, backing))
    ensures r == 0 ==>
      && heap.st.live == old(heap.st.live) && Blocks(heap.st) == old(Blocks(heap.st))
      && heap.st.slabs == old(heap.st.slabs)
    ensures r != 0 ==>
      && r !in old(heap.st.live) && r in heap.st.live && Answers(size, heap.st.live[r])
      && size <= heap.st.live[r] && OtherRooms(old(heap.st), heap.st, heap.st.live[r])
      && heap.st.live == old(heap.st.live)[r := heap.st.live[r]]
      && OthersStand(old(Blocks(heap.st)), Blocks(heap.st), r)
      && size <= |BytesAt(heap.st, r)| && BytesAt(heap.st, r)[..size] == seq(size, _ => 0)
  {
    hide HeapOk, Blocks, BytesOf, Servable, Answers, OtherRooms;
    BlockDomain(heap.st);
    r := heap.KMalloc(size, backing);
    if r == 0 {
      return;
    }
    AnswersFit(size, heap.st.live[r]);
    ghost var s := heap.st;
    StoreBytes(heap, r, 0, seq(size, _ => 0));
    SameRooms(s, heap.st, s.live[r]);
    RoomsTwice(old(heap.st), s, heap.st, s.live[r]);
  }

  /** The block at data became the one at r, or is new if data is NULL; all others stand. */
  ghost predicate Moved(b: map<nat, seq<nat>>, b': map<nat, seq<nat>>, data: nat, r: nat)
  {
    && 0 !in b && 0 !in b' && r in b' && (r == data || r !in b)
    && (forall x :: x in b && x != data ==> x in b' && b'[x] == b[x])
    && (forall x :: x in b' && x != r ==> x in b && x != data)
  }

  /** The block at data has the size, or can be moved to one that has. */
  ghost predicate Growable(s: State, data: nat, size: nat, backing: Backing)
  {
    (data in s.live && size <= s.live[data]) || Servable(s, size, backing)
  }

  /** krealloc of a block or of NULL to a size above 0, in bytes. */
  method Regrow(heap: Heap, data: nat, size: nat, backing: Backing) returns (r: nat)
    requires heap.Valid() && (data == 0 || data in heap.st.live) && 0 < size < 0x1_0000_0000
    modifies heap
    ensures heap.Valid() && (r == 0 <==> !Growable(old(heap.st), data, size, backing))
    ensures r == 0 ==>
      && heap.st.live == old(heap.st.live) && Blocks(heap.st) == old(Blocks(heap.st))
      && heap.st.slabs == old(heap.st.slabs)
    ensures r != 0 ==>
      && r in heap.st.live && size <= heap.st.live[r] && Moved(old(Blocks(heap.st)), Blocks(heap.st), data, r)
      && old(BytesAt(heap.st, data)) <= BytesAt(heap.st, r)
      && heap.st.live.Keys == Blocks(heap.st).Keys && |BytesAt(heap.st, r)| == heap.st.live[r]
  {
    hide HeapOk, Blocks, BytesOf, Servable, Answers, Moved;
    NoNull(heap.st);
    BlockDomain(heap.st);
    ghost var was := heap.st;
    r := heap.KRealloc(data, size, backing);
    if r == 0 {
      return;
    }
    BlockDomain(heap.st);
    BlockCovers(heap.st, r);
    if data == 0 {
      AnswersFit(size, heap.st.live[r]);
      MovedNew(was, heap.st, r);
    } else if r == data {
      MovedSame(was, r);
    } else {
      MovedAway(was, heap.st, data, r);
    }
  }

  lemma MovedNew(s: State, s': State, r: nat)
    requires HeapOk(s) && HeapOk(s') && r !in s.live && r in Blocks(s') && Blocks(s') == Blocks(s)[r := Blocks(s')[r]]
    ensures Moved(Blocks(s), Blocks(s'), 0, r) && BytesAt(s, 0) == []
  {
    hide HeapOk, Blocks, BytesOf;
    NoNull(s);
    NoNull(s');
    BlockDomain(s);
    BlockDomain(s');
  }

  lemma MovedSame(s: State, r: nat)
    requires HeapOk(s) && r in s.live
    ensures Moved(Blocks(s), Blocks(s), r, r)
  {
    hide HeapOk, Blocks, BytesOf;
    NoNull(s);
    BlockDomain(s);
  }

  lemma MovedAway(s: State, s': State, data: nat, r: nat)
    requires HeapOk(s) && HeapOk(s') && data in s.live && r !in s.live && r in Blocks(s') && data in Blocks(s)
    requires Blocks(s') == Blocks(s)[r := Blocks(s')[r]] - {data} && Blocks(s)[data] <= Blocks(s')[r]
    ensures Moved(Blocks(s), Blocks(s'), data, r) && BytesAt(s, data) <= BytesAt(s', r)
  {
    hide HeapOk, Blocks, BytesOf;
    NoNull(s);
    NoNull(s');
    BlockDomain(s);
    BlockDomain(s');
    BytesPrefix(Blocks(s)[data], Blocks(s')[r]);
  }

  // ---- Contents ----

  /** now is was with bs written from off on; what a gap before off holds is left open. */
  ghost predicate Written(was: seq<byte>, off: nat, bs: seq<byte>, now: seq<byte>)
  {
    && |now| == (if off + |bs| > |was| then off + |bs| else |was|)
    && now[off..off + |bs|] == bs
    && (forall i :: 0 <= i < |was| && !(off <= i < off + |bs|) ==> now[i] == was[i])
  }

  /** s with bs written over it from off on. */
  function Over(s: seq<byte>, off: nat, bs: seq<byte>): seq<byte>
    requires off <= |s|
  {
    s[..off] + bs + if off + |bs| < |s| then s[off + |bs|..] else []
  }

  /** Without a gap the result is determined. */
  lemma WrittenOver(was: seq<byte>, off: nat, bs: seq<byte>, now: seq<byte>)
    requires off <= |was|
    ensures Written(was, off, bs, now) <==> now == Over(was, off, bs)
  {
    if Written(was, off, bs, now) {
      forall i | 0 <= i < |now| ensures now[i] == Over(was, off, bs)[i] {
        if off <= i < off + |bs| { assert now[off..off + |bs|][i - off] == now[i]; }
      }
    }
  }

  /** Two writes end to end are one write of both buffers. */
  lemma WrittenTwice(a: seq<byte>, off: nat, x: seq<byte>, b: seq<byte>, y: seq<byte>, c: seq<byte>)
    requires Written(a, off, x, b) && Written(b, off + |x|, y, c)
    ensures Written(a, off, x + y, c)
  {
    forall i | 0 <= i < |x| ensures c[off + i] == x[i] {
      assert b[off..off + |x|][i] == b[off + i];
    }
    forall i | 0 <= i < |y| ensures c[off + |x| + i] == y[i] {
      assert c[off + |x|..off + |x| + |y|][i] == c[off + |x| + i];
    }
  }

  /** Up to count bytes of s from off on. */
  function Piece(s: seq<byte>, off: nat, count: nat): seq<byte>
  {
    if off >= |s| then []
    else if off + count <= |s| then s[off..off + count] else s[off..]
  }

  /** A piece, byte by byte: as many as were asked for or are left. */
  lemma PieceIs(s: seq<byte>, off: nat, count: nat)
    ensures var p := Piece(s, off, count);
      && |p| == (if off >= |s| then 0 else if count < |s| - off then count else |s| - off)
      && forall i :: 0 <= i < |p| ==> p[i] == s[off + i]
  {}

  /** What has been written is read back, from wherever in the range it is read. */
  lemma WrittenRead(was: seq<byte>, off: nat, bs: seq<byte>, now: seq<byte>, from: nat, count: nat)
    requires Written(was, off, bs, now) && off <= from && from + count <= off + |bs|
    ensures Piece(now, from, count) == bs[from - off..from - off + count]
  {
    var p := Piece(now, from, count);
    forall i | 0 <= i < |p| ensures p[i] == bs[from - off + i] {
      assert now[off..off + |bs|][from - off + i] == now[from + i];
    }
  }

  /** What the heap has for one write: for the record and for the buffer. */
  datatype Supply = Supply(record: Backing, buffer: Backing)

  /** What a growing buffer asks for. */
  function Wanted(need: nat): nat { need * 2 + 64 }

  /** There is as much room for buffers as there was. */
  ghost predicate SameGrowth(s: State, s': State, data: nat)
  {
    forall need, b :: Growable(s', data, Wanted(need), b) <==> Growable(s, data, Wanted(need), b)
  }

  /** Blocks that are no part of a file stand with their contents, and the file leaks
      none: own and own' are its blocks before and after. */
  ghost predicate OwnOnly(b: map<nat, seq<nat>>, own: set<nat>, b': map<nat, seq<nat>>, own': set<nat>)
  {
    && (forall x :: x in b && x !in own ==> x in b' && x !in own' && b'[x] == b[x])
    && (forall x :: x in b' && x !in own' ==> x in b && x !in own)
  }

  /** The record of a file that has none yet, and no buffer. */
  method NewRecord(heap: Heap, backing: Backing) returns (rec: nat)
    requires heap.Valid()
    modifies heap
    ensures heap.Valid() && (rec == 0 <==> !Servable(old(heap.st), RECORD, backing))
    ensures rec == 0 ==> !Servable(heap.st, RECORD, backing)
    ensures rec != 0 ==> rec in heap.st.live
    ensures SameGrowth(old(heap.st), heap.st, 0)
    ensures OwnOnly(old(Blocks(heap.st)), {0, 0} - {0}, Blocks(heap.st), {rec, 0} - {0})
  {
    hide HeapOk, Blocks, BytesOf, BytesAt, Servable, OwnOnly, OthersStand, SameGrowth, OtherRooms, Answers;
    ghost var b, was := Blocks(heap.st), heap.st;
    BlockDomain(heap.st);
    rec := KZalloc(heap, RECORD, backing);
    BlockDomain(heap.st);
    if rec == 0 {
      OwnSame(b, {0, 0} - {0});
      SameRooms(was, heap.st, 0);
      ServedAlike(was, heap.st, 0, RECORD, backing);
      GrowAlike(was, heap.st, 0);
    } else {
      RecordOwn(b, Blocks(heap.st), rec);
      RecordSize(heap.st.live[rec]);
      GrowAlike(was, heap.st, heap.st.live[rec]);
    }
  }

  /** A file: its record, and a buffer of cap bytes of which size are in use; vsize is
      what its vnode reports. Both blocks are NULL before the first write. */
  class TmpFile {
    const heap: Heap
    var rec: nat
    var data: nat
    var size: nat
    var cap: nat
    var vsize: nat

    ghost predicate Valid()
      reads this, heap
    {
      && heap.Valid() && size <= cap && vsize == size
      && (rec != 0 ==> rec in heap.st.live)
      && (rec == 0 ==> data == 0)
      && (data == 0 ==> cap == 0)
      && (data != 0 ==> data in heap.st.live && data != rec && cap <= heap.st.live[data])
    }

    ghost function Contents(): seq<byte>
      reads this, heap
    {
      var bs := BytesAt(heap.st, data);
      if size <= |bs| then bs[..size] else []
    }

    /** The blocks of the file. */
    ghost function Own(): set<nat>
      reads this
    {
      {rec, data} - {0}
    }

    constructor (heap: Heap)
      requires heap.Valid()
      ensures Valid() && this.heap == heap && Contents() == [] && Own() == {}
    {
      hide HeapOk, Blocks, BytesOf, BytesAt;
      this.heap, rec, data, size, cap, vsize := heap, 0, 0, 0, 0, 0;
    }

    /** Empties the file; the buffer stays. */
    method Truncate()
      requires Valid()
      modifies this
      ensures Valid() && Contents() == [] && cap == old(cap) && Own() == old(Own())
    {
      hide HeapOk, Blocks, BytesOf, BytesAt;
      size, vsize := 0, 0;
    }

    method Read(count: nat, off: nat) returns (bs: seq<byte>)
      requires Valid()
      ensures bs == Piece(Contents(), off, count)
      ensures ghost var n := |Contents()|;
        |bs| == if off >= n then 0 else if count < n - off then count else n - off
      ensures forall i :: 0 <= i < |bs| ==> off + i < |Contents()| && bs[i] == Contents()[off + i]
    {
      hide HeapOk, Blocks, BytesOf;
      PieceIs(Contents(), off, count);
      if rec == 0 || off >= size {
        return [];
      }
      var avail := size - off;
      var n := if count < avail then count else avail;
      bs := LoadBytes(heap, data, off, n);
    }

    /** The record, allocated with the first write. */
    method EnsureRecord(backing: Backing) returns (ok: bool)
      requires Valid()
      modifies `rec, heap
      ensures Valid() && (ok <==> rec != 0) && (old(rec) != 0 ==> rec == old(rec) && heap.st == old(heap.st))
      ensures ok <==> old(rec) != 0 || Servable(old(heap.st), RECORD, backing)
      ensures !ok ==> !Servable(heap.st, RECORD, backing)
      ensures SameGrowth(old(heap.st), heap.st, data)
      ensures Contents() == old(Contents()) && cap == old(cap)
      ensures OwnOnly(old(Blocks(heap.st)), old(Own()), Blocks(heap.st), Own())
    {
      hide HeapOk, Blocks, BytesOf, Servable, OwnOnly, BytesAt, SameGrowth;
      OwnSame(Blocks(heap.st), Own());
      AlikeItself(heap.st, data);
      if rec == 0 {
        rec := NewRecord(heap, backing);
      }
      ok := rec != 0;
    }

    /** A larger buffer that starts with the same bytes. */
    method Grow(need: nat, backing: Backing) returns (ok: bool)
      requires Valid() && rec != 0 && need > cap && Wanted(need) < 0x1_0000_0000
      modifies `data, `cap, heap
      ensures Valid() && (ok <==> Growable(old(heap.st), old(data), Wanted(need), backing))
      ensures !ok ==> !Growable(heap.st, data, Wanted(need), backing) && data == old(data) && cap == old(cap)
      ensures ok ==> data != 0 && cap == Wanted(need)
      ensures Contents() == old(Contents())
      ensures OwnOnly(old(Blocks(heap.st)), old(Own()), Blocks(heap.st), Own())
    {
      hide HeapOk, Blocks, BytesOf, Growable, OwnOnly, Moved;
      OwnSame(Blocks(heap.st), Own());
      ghost var b, s := Blocks(heap.st), heap.st;
      BlockDomain(heap.st);
      if data != 0 { BlockCovers(heap.st, data); }
      var nb := Regrow(heap, data, Wanted(need), backing);
      if nb == 0 {
        RefusedAlike(s, heap.st, data, Wanted(need), backing);
        return false;
      }
      MovedOwn(b, Blocks(heap.st), rec, data, nb);
      data, cap, ok := nb, Wanted(need), true;
    }

    /** Writes bs at off, moving the buffer when it must grow. */
    method Write(bs: seq<byte>, off: nat, supply: Supply) returns (ok: bool)
      requires Valid() && Wanted(off + |bs|) < 0x1_0000_0000
      modifies this, heap
      ensures Valid()
      ensures ok <==>
        && (old(rec) != 0 || Servable(old(heap.st), RECORD, supply.record))
        && (off + |bs| <= old(cap) || Growable(old(heap.st), old(data), Wanted(off + |bs|), supply.buffer))
      ensures !ok ==> Contents() == old(Contents()) && cap == old(cap) && data == old(data)
      ensures !ok ==> Refused(this, off + |bs|, supply)
      ensures ok ==> Written(old(Contents()), off, bs, Contents())
      ensures ok ==> cap == if off + |bs| <= old(cap) then old(cap) else 2 * (off + |bs|) + 64
      ensures OwnOnly(old(Blocks(heap.st)), old(Own()), Blocks(heap.st), Own())
    {
      hide HeapOk, Blocks, BytesOf, Servable, Growable, Written, OwnOnly;
      ghost var was, b0, own0 := Contents(), Blocks(heap.st), Own();
      ok := EnsureRecord(supply.record);
      if !ok {
        return;
      }
      ghost var b1, own1 := Blocks(heap.st), Own();
      var need := off + |bs|;
      if need > cap {
        ok := Grow(need, supply.buffer);
        OwnTrans(b0, own0, b1, own1, Blocks(heap.st), Own());
        if !ok {
          return;
        }
      }
      ghost var b2, own2 := Blocks(heap.st), Own();
      Place(bs, off);
      OwnTrans(b0, own0, b2, own2, Blocks(heap.st), Own());
    }

    /** The bytes go into a buffer that has room for them. */
    method Place(bs: seq<byte>, off: nat)
      requires Valid() && off + |bs| <= cap
      modifies `size, `vsize, heap
      ensures Valid() && Written(old(Contents()), off, bs, Contents())
      ensures cap == old(cap)
      ensures OwnOnly(old(Blocks(heap.st)), old(Own()), Blocks(heap.st), Own())
    {
      hide HeapOk, Blocks, BytesOf, BytesAt, Splice, Written, OwnOnly, OthersStand;
      BlockDomain(heap.st);
      if data == 0 { NoBytes(heap.st); } else { BytesCover(heap.st, data); }
      ghost var b, was := Blocks(heap.st), BytesAt(heap.st, data);
      OwnSame(b, Own());
      if |bs| > 0 {
        StoreBytes(heap, data, off, bs);
        BlockDomain(heap.st);
        StoredOwn(b, Blocks(heap.st), Own(), data);
      }
      Placed(was, off, bs, size, BytesAt(heap.st, data));
      if off + |bs| > size {
        size := off + |bs|;
      }
      vsize := size;
    }
  }

  lemma OwnSame(b: map<nat, seq<nat>>, own: set<nat>)
    ensures OwnOnly(b, own, b, own)
  {}

  lemma RecordSize(capacity: nat)
    requires Answers(RECORD, capacity)
    ensures capacity < 64
  {
    assert SIZES[1] == 32;
  }

  /** A request below the size of any buffer leaves the room for buffers as it was. */
  lemma GrowAlike(s: State, s': State, taken: nat)
    requires OtherRooms(s, s', taken) && taken < 64 && HeapOk(s) && HeapOk(s')
    ensures SameGrowth(s, s', 0)
  {
    hide HeapOk, Servable, OtherRooms;
    NoNull(s);
    NoNull(s');
    forall need, b ensures Growable(s', 0, Wanted(need), b) <==> Growable(s, 0, Wanted(need), b) {
      ServedAlike(s, s', taken, Wanted(need), b);
    }
  }

  lemma AlikeItself(s: State, data: nat)
    ensures SameGrowth(s, s, data)
  {}

  lemma RefusedAlike(s: State, s': State, data: nat, size: nat, backing: Backing)
    requires s'.live == s.live && s'.slabs == s.slabs && size > 0
    ensures Growable(s', data, size, backing) <==> Growable(s, data, size, backing)
  {
    SameRooms(s, s', 0);
    ServedAlike(s, s', 0, size, backing);
  }

  lemma NoBytes(s: State)
    requires HeapOk(s)
    ensures BytesAt(s, 0) == []
  {
    hide HeapOk, Blocks;
    NoNull(s);
    BlockDomain(s);
  }

  /** Bytes put into a buffer of which size are in use are written to the contents. */
  lemma Placed(was: seq<byte>, off: nat, bs: seq<byte>, size: nat, now: seq<byte>)
    requires off + |bs| <= |was| && size <= |was|
    requires now == if bs == [] then was else Splice(was, off, bs)
    ensures |now| == |was|
    ensures Written(was[..size], off, bs, now[..if off + |bs| > size then off + |bs| else size])
  {}

  lemma StoredOwn(b: map<nat, seq<nat>>, b': map<nat, seq<nat>>, own: set<nat>, data: nat)
    requires OthersStand(b, b', data) && data in own && b'.Keys == b.Keys
    ensures OwnOnly(b, own, b', own)
  {}

  lemma RecordOwn(b: map<nat, seq<nat>>, b': map<nat, seq<nat>>, rec: nat)
    requires rec !in b && b'.Keys == b.Keys + {rec} && OthersStand(b, b', rec) && rec != 0
    ensures OwnOnly(b, {0, 0} - {0}, b', {rec, 0} - {0})
  {}

  lemma MovedOwn(b: map<nat, seq<nat>>, b': map<nat, seq<nat>>, rec: nat, data: nat, r: nat)
    requires Moved(b, b', data, r) && rec in b && data != rec && rec != 0 && r != 0
    ensures rec in b' && r != rec && OwnOnly(b, {rec, data} - {0}, b', {rec, r} - {0})
  {}

  lemma OwnTrans(a: map<nat, seq<nat>>, own: set<nat>, b: map<nat, seq<nat>>, own': set<nat>,
                 c: map<nat, seq<nat>>, own'': set<nat>)
    requires OwnOnly(a, own, b, own') && OwnOnly(b, own', c, own'')
    ensures OwnOnly(a, own, c, own'')
  {}

  /** An open file and the offset the next operation starts at. */
  class OpenFile {
    const file: TmpFile
    var offset: nat

    constructor (file: TmpFile)
      ensures this.file == file && offset == 0
    {
      this.file, offset := file, 0;
    }

    method Read(count: nat) returns (bs: seq<byte>)
      requires file.Valid()
      modifies `offset
      ensures bs == Piece(file.Contents(), old(offset), count) && offset == old(offset) + |bs|
      ensures ghost var n := |file.Contents()|;
        |bs| == if old(offset) >= n then 0 else if count < n - old(offset) then count else n - old(offset)
      ensures forall i :: 0 <= i < |bs| ==>
        old(offset) + i < |file.Contents()| && bs[i] == file.Contents()[old(offset) + i]
    {
      hide TmpFile.Valid, TmpFile.Contents;
      bs := file.Read(count, offset);
      offset := offset + |bs|;
    }

    method Write(bs: seq<byte>, supply: Supply) returns (ok: bool)
      requires file.Valid() && Wanted(offset + |bs|) < 0x1_0000_0000
      modifies this, file, file.heap
      ensures file.Valid()
      ensures ok ==> Written(old(file.Contents()), old(offset), bs, file.Contents()) && offset == old(offset) + |bs|
      ensures !ok ==> file.Contents() == old(file.Contents()) && offset == old(offset)
      ensures !ok ==> Refused(file, offset + |bs|, supply)
      ensures ok <==>
        && (old(file.rec) != 0 || Servable(old(file.heap.st), RECORD, supply.record))
        && (|| old(offset) + |bs| <= old(file.cap)
            || Growable(old(file.heap.st), old(file.data), Wanted(old(offset) + |bs|), supply.buffer))
      ensures OwnOnly(old(Blocks(file.heap.st)), old(file.Own()), Blocks(file.heap.st), file.Own())
    {
      hide HeapOk, Blocks, Written, OwnOnly, Servable, Growable;
      ok := file.Write(bs, offset, supply);
      if ok {
        offset := offset + |bs|;
      }
    }
  }

  /** The heap has no room for the record, or for a buffer of need bytes. */
  ghost predicate Refused(file: TmpFile, need: nat, supply: Supply)
    reads file, file.heap
  {
    if file.rec == 0 then !Servable(file.heap.st, RECORD, supply.record)
    else need > file.cap && !Growable(file.heap.st, file.data, Wanted(need), supply.buffer)
  }
}
