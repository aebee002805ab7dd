/** The read and write system calls move a file to and from user memory in chunks of
    128 bytes: as if in one piece. */
module FileIO {
  import opened Wrappers
  import opened Paging
  import opened Pmm
  import opened Tables
  import opened Views
  import opened Walk
  import opened Vmm
  import opened UserMemory
  import HeapLayout
  import opened Files

  const CHUNK: nat := 128

  /** What one pass of the loop moves. */
  function Next(count: nat, done: nat): (n: nat)
    requires done <= count
    ensures n <= 128 && n <= count - done && (n == 128 || n == count - done)
  {
    if count - done < CHUNK then count - done else CHUNK
  }

  datatype Result = Count(n: nat) | Fault | NoRoom

  /** The file after the bytes bs went to it: nothing happens before the first of them. */
  ghost predicate Took(was: seq<byte>, off: nat, bs: seq<byte>, now: seq<byte>)
  {
    if bs == [] then now == was else Written(was, off, bs, now)
  }

  /** Writes count user bytes at addr to the file: as one write of what the process
      sees there. It stops early only where a byte cannot be read or the heap refuses,
      and has then written the bytes before. supplies says what the heap has for each
      chunk, by the bytes done before it. */
  method SysWrite(v: PageTables, f: OpenFile, addr: nat, count: nat, supplies: nat -> Supply)
    returns (r: Result, ghost bs: seq<byte>)
    requires v.Valid(None) && v.SpacesOk() && f.file.Valid() && Wanted(f.offset + count) < 0x1_0000_0000
    modifies f, f.file, f.file.heap, v`mem, v`sys, v.pmm, v.pmm.bitmap, v.pmm.refcount
    ensures Undisturbed(v, old(v.sys)) && Pages(v.sys) == Pages(old(v.sys)) && f.file.Valid()
    ensures Reads(Pages(v.sys), v.cur, addr, bs) && |bs| <= count
    ensures Took(old(f.file.Contents()), old(f.offset), bs, f.file.Contents()) && f.offset == old(f.offset) + |bs|
    ensures r.Count? ==> r.n == count == |bs|
    ensures !r.Count? ==> |bs| < count
    ensures r.Fault? ==> Barred(Pages(v.sys), v.cur, addr + |bs|, Next(count, |bs|), false)
    ensures r.NoRoom? ==> Refused(f.file, f.offset + Next(count, |bs|), supplies(|bs|))
    ensures OwnOnly(old(HeapLayout.Blocks(f.file.heap.st)), old(f.file.Own()),
                    HeapLayout.Blocks(f.file.heap.st), f.file.Own())
  {
    hide PathOf, AccessTo, Pages, Reads, Inv, Kept, Sound, SpacesIn, Written, OwnOnly, Refused, Barred, AllGranted;
    hide HeapLayout.HeapOk, HeapLayout.Blocks, TmpFile.Valid, TmpFile.Contents, TmpFile.Own, Took;
    bs := [];
    var done := 0;
    ghost var was, off := f.file.Contents(), f.offset;
    ghost var b0, own0 := HeapLayout.Blocks(f.file.heap.st), f.file.Own();
    OwnSame(b0, own0);
    TookNone(was, off);
    StillSame(v);
    ReadsNone(Pages(v.sys), v.cur, addr);
    while done < count
      invariant Undisturbed(v, old(v.sys)) && Pages(v.sys) == Pages(old(v.sys)) && f.file.Valid()
      invariant done == |bs| <= count && Reads(Pages(v.sys), v.cur, addr, bs)
      invariant Took(was, off, bs, f.file.Contents()) && f.offset == off + done
      invariant OwnOnly(b0, own0, HeapLayout.Blocks(f.file.heap.st), f.file.Own())
    {
      var n := Next(count, done);
      ghost var s1 := v.sys;
      var from := addr + done;
      var ok, chunk := CopyFromUser(v, from, n);
      KeptTrans(old(v.sys), s1, v.sys);
      if !ok {
        FaultBars(Pages(v.sys), v.cur, from, n, |chunk|, false);
        return Fault, bs;
      }
      ghost var c1, b1, own1 := f.file.Contents(), HeapLayout.Blocks(f.file.heap.st), f.file.Own();
      ok := f.Write(chunk, supplies(done));
      OwnTrans(b0, own0, b1, own1, HeapLayout.Blocks(f.file.heap.st), f.file.Own());
      if !ok {
        return NoRoom, bs;
      }
      ReadsNext(Pages(v.sys), v.cur, addr, bs, from, chunk);
      TookNext(was, off, bs, c1, chunk, f.file.Contents());
      bs, done := bs + chunk, done + n;
    }
    return Count(done), bs;
  }

  lemma TookNone(was: seq<byte>, off: nat)
    ensures Took(was, off, [], was)
  {}

  lemma TookNext(was: seq<byte>, off: nat, bs: seq<byte>, mid: seq<byte>, chunk: seq<byte>, now: seq<byte>)
    requires Took(was, off, bs, mid) && Written(mid, off + |bs|, chunk, now) && chunk != []
    ensures Took(was, off, bs + chunk, now)
  {
    if bs == [] {
      assert bs + chunk == chunk;
    } else {
      WrittenTwice(was, off, bs, mid, chunk, now);
    }
  }

  lemma FaultBars(pages: map<Path, PageView>, root: nat, addr: nat, n: nat, k: nat, write: bool)
    requires k < n
    requires AccessTo(pages, root, addr + k, write) == Denied || addr + n > USER_SPACE_TOP
    ensures Barred(pages, root, addr, n, write)
  {
    if AccessTo(pages, root, addr + k, write) == Denied { DeniedBars(pages, root, addr, n, addr + k, write); }
  }

  lemma ReadsNone(pages: map<Path, PageView>, root: nat, addr: nat)
    ensures Reads(pages, root, addr, [])
  {}

  lemma StillSame(v: PageTables)
    requires v.Valid(None) && v.SpacesOk()
    ensures Undisturbed(v, v.sys)
  {
    GrownSame(v.sys, Root(Shared));
  }

  /** The bytes in whole chunks among n delivered ones. */
  function Whole(n: nat): nat { n / CHUNK * CHUNK }

  /** Reads up to count bytes of the file to the user address addr: as one read. It
      faults only where a byte cannot be written or no frame is left for its copy;
      then the bytes before have arrived, but the offset has moved past the chunk. */
  method SysRead(v: PageTables, f: OpenFile, addr: nat, count: nat) returns (r: Result, ghost bs: seq<byte>)
    requires v.Valid(None) && v.SpacesOk() && f.file.Valid()
    modifies f, v`mem, v`sys, v.pmm, v.pmm.bitmap, v.pmm.refcount
    ensures Undisturbed(v, old(v.sys)) && !r.NoRoom?
    ensures Pages(v.sys) == WriteBytes(Pages(old(v.sys)), v.cur, addr, bs)
    ensures AllGranted(Pages(old(v.sys)), v.cur, addr, |bs|, true)
    ensures forall i :: 0 <= i < |bs| ==>
      old(f.offset) + i < |f.file.Contents()| && bs[i] == f.file.Contents()[old(f.offset) + i]
    ensures r.Count? ==> ghost var size := |f.file.Contents()|;
      r.n == if old(f.offset) >= size then 0 else if count < size - old(f.offset) then count else size - old(f.offset)
    ensures r.Count? ==>
      && bs == Piece(f.file.Contents(), old(f.offset), count)
      && r.n == |bs| && f.offset == old(f.offset) + |bs|
    ensures r.Fault? ==>
      && bs < Piece(f.file.Contents(), old(f.offset), count)
      && Whole(|bs|) <= count && ghost var n := Next(count, Whole(|bs|));
      && ghost var taken := Piece(f.file.Contents(), old(f.offset), Whole(|bs|) + n);
      && f.offset == old(f.offset) + |taken| && |bs| < |taken|
      && (|| Barred(Pages(old(v.sys)), v.cur, addr + Whole(|bs|), |taken| - Whole(|bs|), true)
          || NoFrameFor(v.sys, v.cur, addr + |bs|))
  {
    hide PathOf, AccessTo, Pages, Inv, Kept, Sound, SpacesIn, WriteBytes, Piece, Barred, AllGranted, Whole, NoFrameFor;
    hide HeapLayout.HeapOk, HeapLayout.Blocks, TmpFile.Valid, TmpFile.Contents;
    bs := [];
    var done := 0;
    ghost var was, off, pages := f.file.Contents(), f.offset, Pages(v.sys);
    StillSame(v);
    WriteNone(pages, v.cur, addr, []);
    NoneGranted(pages, v.cur, addr, true);
    PieceNone(was, off, count);
    while done < count
      invariant Undisturbed(v, old(v.sys)) && Pages(v.sys) == WriteBytes(pages, v.cur, addr, bs)
      invariant done == |bs| <= count && bs == Piece(was, off, done) && f.offset == off + done
      invariant (done % CHUNK == 0 || done == count) && AllGranted(pages, v.cur, addr, done, true)
    {
      var n := Next(count, done);
      var to := addr + done;
      var chunk := f.Read(n);
      PieceTwice(was, off, done, count - done);
      PieceTwice(was, off, done, n);
      PieceShort(was, off + done, n, count - done);
      if |chunk| == 0 {
        assert Piece(was, off, count) == bs + [] == bs;
        break;
      }
      ghost var s1, now := v.sys, Pages(v.sys);
      var ok, sent := CopyToUser(v, to, chunk);
      KeptTrans(old(v.sys), s1, v.sys);
      WriteBytesSplit(pages, v.cur, addr, bs, chunk[..sent]);
      MoreGranted(pages, v.cur, addr, bs, to, sent);
      if !ok {
        FaultBarred(pages, v.cur, addr, bs, to, |chunk|, sent, NoFrameFor(v.sys, v.cur, to + sent));
        bs := bs + chunk[..sent];
        WholeIs(done, sent);
        PiecePart(was, off, done, n, count, chunk, sent);
        PieceIs(was, off, count);
        return Fault, bs;
      }
      assert chunk[..sent] == chunk;
      bs, done := bs + chunk, done + |chunk|;
      if |chunk| < n {
        break;
      }
    }
    PieceIs(was, off, count);
    return Count(done), bs;
  }

  lemma NoneGranted(pages: map<Path, PageView>, root: nat, addr: nat, write: bool)
    ensures AllGranted(pages, root, addr, 0, write)
  {}

  /** Permissions do not depend on what has been written. */
  lemma MoreGranted(pages: map<Path, PageView>, root: nat, addr: nat, bs: seq<byte>, to: nat, sent: nat)
    requires AllGranted(pages, root, addr, |bs|, true) && to == addr + |bs|
    requires AllGranted(WriteBytes(pages, root, addr, bs), root, to, sent, true)
    ensures AllGranted(pages, root, addr, |bs| + sent, true)
  {
    hide AccessTo;
    forall a | addr <= a < addr + |bs| + sent ensures AccessTo(pages, root, a, true) == Granted {
      AccessSame(pages, root, addr, bs, a, true);
    }
  }

  lemma FaultBarred(pages: map<Path, PageView>, root: nat, addr: nat, bs: seq<byte>, to: nat, n: nat, sent: nat,
                    dry: bool)
    requires to == addr + |bs| && sent < n
    requires || AccessTo(WriteBytes(pages, root, addr, bs), root, to + sent, true) == Denied
             || dry || to + n > USER_SPACE_TOP
    ensures Barred(pages, root, to, n, true) || dry
  {
    AccessSame(pages, root, addr, bs, to + sent, true);
    if !dry { FaultBars(pages, root, to, n, sent, true); }
  }

  lemma WholeIs(done: nat, sent: nat)
    requires done % CHUNK == 0 && sent < CHUNK
    ensures Whole(done + sent) == done
  {}

  lemma PieceNone(s: seq<byte>, off: nat, count: nat)
    ensures Piece(s, off, 0) == [] && [] <= Piece(s, off, count)
  {}

  lemma PieceTwice(s: seq<byte>, off: nat, a: nat, b: nat)
    requires |Piece(s, off, a)| == a
    ensures Piece(s, off, a + b) == Piece(s, off, a) + Piece(s, off + a, b)
  {}

  /** A short read has reached the end. */
  lemma PieceShort(s: seq<byte>, off: nat, n: nat, m: nat)
    requires n <= m
    ensures |Piece(s, off, n)| <= n && (|Piece(s, off, n)| < n ==> Piece(s, off, m) == Piece(s, off, n))
  {}

  lemma PiecePart(s: seq<byte>, off: nat, done: nat, n: nat, count: nat, chunk: seq<byte>, sent: nat)
    requires |Piece(s, off, done)| == done && done + n <= count
    requires chunk == Piece(s, off + done, n) && sent < |chunk|
    ensures Piece(s, off, done) + chunk[..sent] < Piece(s, off, count)
    ensures |Piece(s, off, done + n)| == done + |chunk|
  {}
}
