/** The physical frame allocator: a bitmap with one bit per 4 KiB frame, a
    16-bit reference count per frame, a free counter and a scan hint.
    The abstract value is the set `free` of free frames and the sequence `rc`
    of reference counts; `Valid` ties both to the bytes of the bitmap. */
module Pmm {
  import opened Wrappers

  const FRAME_SIZE := 4096
  const REFCOUNT_MAX := 65535

  /** The mask `1u << k` of a bit inside a bitmap byte. */
  function Bit(k: nat): bv8
    requires k < 8
  {
    if k == 0 then 1 else if k == 1 then 2 else if k == 2 then 4 else if k == 3 then 8
    else if k == 4 then 16 else if k == 5 then 32 else if k == 6 then 64 else 128
  }

  lemma BitIs(k: nat)
    requires k < 8
    ensures Bit(k) == (1 as bv8) << k
  {
    if k < 4 {} else {}
  }

  predicate Clear(b: bv8, k: nat)
    requires k < 8
  {
    b & Bit(k) == 0
  }

  /** Setting one bit of a byte, for every other bit of that byte. */
  lemma SetBit(b: bv8, k: nat, j: nat)
    requires k < 8 && j < 8
    ensures Clear(b | Bit(k), j) <==> j != k && Clear(b, j)
  {
    if k < 2 {} else if k < 4 {} else if k < 6 {} else {}
  }

  lemma ClearBit(b: bv8, k: nat, j: nat)
    requires k < 8 && j < 8
    ensures Clear(b & !Bit(k), j) <==> j == k || Clear(b, j)
  {
    if k < 2 {} else if k < 4 {} else if k < 6 {} else {}
  }

  /** A byte equal to 0xFF has no clear bit: the scan may skip it. */
  lemma FullByte(k: nat)
    requires k < 8
    ensures !Clear(0xFF, k)
  {}

  /** Frame f is free in the bitmap bytes bm. */
  predicate BitFree(bm: seq<bv8>, f: nat)
    requires f < 8 * |bm|
  {
    Clear(bm[f / 8], f % 8)
  }

  /** The bitmap bytes with frame f marked used, and marked free. */
  function WithUsed(bm: seq<bv8>, f: nat): (r: seq<bv8>)
    requires f < 8 * |bm|
  {
    bm[f / 8 := bm[f / 8] | Bit(f % 8)]
  }

  function WithFree(bm: seq<bv8>, f: nat): (r: seq<bv8>)
    requires f < 8 * |bm|
  {
    bm[f / 8 := bm[f / 8] & !Bit(f % 8)]
  }

  lemma SetUsedBit(bm: seq<bv8>, f: nat, g: nat)
    requires f < 8 * |bm| && g < 8 * |bm|
    ensures BitFree(WithUsed(bm, f), g) <==> g != f && BitFree(bm, g)
  {
    if g / 8 == f / 8 { SetBit(bm[f / 8], f % 8, g % 8); }
  }

  lemma SetFreeBit(bm: seq<bv8>, f: nat, g: nat)
    requires f < 8 * |bm| && g < 8 * |bm|
    ensures BitFree(WithFree(bm, f), g) <==> g == f || BitFree(bm, g)
  {
    if g / 8 == f / 8 { ClearBit(bm[f / 8], f % 8, g % 8); }
  }

  /** The frames start, start + 1, ..., start + n - 1. */
  ghost function Run(start: nat, n: nat): (s: set<nat>)
    ensures forall f :: f in s <==> start <= f < start + n
  {
    if n == 0 then {} else Run(start, n - 1) + {start + n - 1}
  }

  lemma {:induction false} RunSize(start: nat, n: nat)
    ensures |Run(start, n)| == n
  {
    if n == 0 {
      assert Run(start, 0) == {};
    } else {
      RunSize(start, n - 1);
      assert Run(start, n) == Run(start, n - 1) + {start + n - 1};
    }
  }

  lemma SubsetSize<T>(a: set<T>, b: set<T>)
    requires a <= b
    ensures |a| <= |b|
  {
    assert b == a + (b - a);
  }

  lemma RunNeedsFrames(start: nat, n: nat, free: set<nat>)
    requires Run(start, n) <= free
    ensures n <= |free|
  {
    RunSize(start, n);
    SubsetSize(Run(start, n), free);
  }

  /** The known frames that RegionMarkFree frees: the base is rounded down. */
  ghost function MarkedFree(base: nat, len: nat, total: nat): (s: set<nat>)
  {
    set f | f in Run(0, total) && base / FRAME_SIZE <= f < (base + len) / FRAME_SIZE
  }

  /** The bitmap bytes bm, the counts rc, the counter and the hint describe the free set. */
  ghost predicate Sound(bm: seq<bv8>, rc: seq<nat>, free: set<nat>, freeCount: nat, hint: nat)
  {
    && |rc| <= 8 * |bm|
    && (forall f :: f in free ==> hint <= f < |rc| && rc[f] == 0)
    && (forall f :: 0 <= f < |rc| ==> rc[f] <= REFCOUNT_MAX)
    && (forall f :: 0 <= f < |rc| ==> (f in free <==> BitFree(bm, f)))
    && freeCount == |free|
  }

  lemma UseKeepsSound(bm: seq<bv8>, rc: seq<nat>, free: set<nat>, freeCount: nat, hint: nat, f: nat)
    requires Sound(bm, rc, free, freeCount, hint) && f in free
    ensures freeCount > 0
    ensures Sound(WithUsed(bm, f), rc[f := 1], free - {f}, freeCount - 1, hint)
  {
    forall g: nat | g < |rc| ensures
      g in free - {f} <==> BitFree(WithUsed(bm, f), g) { SetUsedBit(bm, f, g); }
  }

  lemma FreeKeepsSound(bm: seq<bv8>, rc: seq<nat>, free: set<nat>, freeCount: nat, hint: nat, f: nat)
    requires Sound(bm, rc, free, freeCount, hint) && f < |rc| && f !in free
    ensures Sound(WithFree(bm, f), rc[f := 0], free + {f}, freeCount + 1,
                  if f < hint then f else hint)
  {
    forall g: nat | g < |rc| ensures
      g in free + {f} <==> BitFree(WithFree(bm, f), g) { SetFreeBit(bm, f, g); }
  }

  lemma FrameOfBit(bm: seq<bv8>, byte: nat, bit: nat)
    requires byte < |bm| && bit < 8
    ensures BitFree(bm, 8 * byte + bit) <==> bm[byte] & Bit(bit) == 0
  {
    assert (8 * byte + bit) / 8 == byte && (8 * byte + bit) % 8 == bit;
  }

  lemma SkipFullByte(bm: seq<bv8>, rc: seq<nat>, free: set<nat>, freeCount: nat, hint: nat, byte: nat)
    requires Sound(bm, rc, free, freeCount, hint) && byte < |bm| && bm[byte] == 0xFF
    requires forall g :: g in free ==> 8 * byte <= g
    ensures forall g :: g in free ==> 8 * (byte + 1) <= g
  {
    forall g | g in free ensures 8 * (byte + 1) <= g {
      if g < 8 * (byte + 1) {
        assert g / 8 == byte;
        FullByte(g % 8);
      }
    }
  }

  class FrameAllocator {
    const bitmap: array<bv8>
    const refcount: array<nat>
    const total: nat
    var freeCount: nat
    var hint: nat
    ghost var free: set<nat>
    ghost var rc: seq<nat>

    ghost predicate Valid()
      reads this, bitmap, refcount
    {
      && refcount.Length == total
      && bitmap as object != refcount
      && rc == refcount[..]
      && Sound(bitmap[..], rc, free, freeCount, hint)
    }

    /** Every frame starts out used and unreferenced; RAM regions are then marked free. */
    constructor (total: nat)
      ensures Valid() && this.total == total && free == {} && hint == 0
      ensures fresh(bitmap) && fresh(refcount)
      ensures rc == seq(total, _ => 0)
    {
      this.total := total;
      bitmap := new bv8[(total + 7) / 8](_ => 0xFF);
      refcount := new nat[total](_ => 0);
      freeCount, hint := 0, 0;
      free := {};
      rc := seq(total, _ => 0);
      new;
      forall f: nat | f < total ensures !BitFree(bitmap[..], f) { FullByte(f % 8); }
    }

    method FrameSetUsed(f: nat)
      requires f < 8 * bitmap.Length
      modifies bitmap
      ensures bitmap[..] == WithUsed(old(bitmap[..]), f)
    {
      bitmap[f / 8] := bitmap[f / 8] | Bit(f % 8);
    }

    method FrameSetFree(f: nat)
      requires f < 8 * bitmap.Length
      modifies bitmap
      ensures bitmap[..] == WithFree(old(bitmap[..]), f)
    {
      bitmap[f / 8] := bitmap[f / 8] & !Bit(f % 8);
    }

    method Take(f: nat)
      requires Valid() && f in free
      modifies this`free, this`rc, this`freeCount, bitmap, refcount
      ensures Valid()
      ensures free == old(free) - {f} && rc == old(rc)[f := 1]
    {
      UseKeepsSound(bitmap[..], rc, free, freeCount, hint, f);
      FrameSetUsed(f);
      refcount[f] := 1;
      freeCount := freeCount - 1;
      free := free - {f};
      rc := rc[f := 1];
    }

    method Release(f: nat)
      requires Valid() && f < total && f !in free && hint == 0
      modifies this`free, this`rc, this`freeCount, bitmap, refcount
      ensures Valid()
      ensures free == old(free) + {f} && rc == old(rc)[f := 0]
    {
      FreeKeepsSound(bitmap[..], rc, free, freeCount, hint, f);
      FrameSetFree(f);
      refcount[f] := 0;
      freeCount := freeCount + 1;
      free := free + {f};
      rc := rc[f := 0];
    }

    /** The bits of one bitmap byte, low to high, clamped to the known frames. */
    method ScanByte(byte: nat) returns (r: Option<nat>)
      requires Valid() && byte < bitmap.Length
      requires forall g :: g in free ==> 8 * byte <= g
      ensures r.Some? ==> r.value in free && forall g :: g in free ==> r.value <= g
      ensures r.None? ==> forall g :: g in free ==> 8 * byte + 8 <= g
    {
      if bitmap[byte] == 0xFF {
        SkipFullByte(bitmap[..], rc, free, freeCount, hint, byte);
        return None;
      }
      for bit := 0 to 8
        invariant forall g :: g in free ==> 8 * byte + bit <= g
      {
        var f := 8 * byte + bit;
        if f >= total {
          break;
        }
        FrameOfBit(bitmap[..], byte, bit);
        if bitmap[byte] & Bit(bit) == 0 {
          return Some(f);
        }
      }
      return None;
    }

    /** Two passes over the bitmap bytes: from the hint's byte to the end, then from 0 to the hint's byte. */
    method Scan() returns (r: Option<nat>)
      requires Valid() && free != {}
      ensures r.Some? && r.value in free && forall g :: g in free ==> r.value <= g
    {
      var nBytes, startByte := (total + 7) / 8, hint / 8;
      for pass := 0 to 2
        invariant pass > 0 ==> free == {}
      {
        var byte := if pass == 0 then startByte else 0;
        var byteEnd := if pass == 0 then nBytes else startByte;
        while byte < byteEnd
          invariant forall g :: g in free ==> 8 * byte <= g
        {
          r := ScanByte(byte);
          if r.Some? {
            return;
          }
          byte := byte + 1;
        }
      }
      return None;
    }

    /** First fit: allocation takes the lowest free frame and fails exactly when none is free. */
    method AllocFrame() returns (r: Option<nat>)
      requires Valid()
      modifies this, bitmap, refcount
      ensures Valid()
      ensures r.None? <==> old(free) == {}
      ensures r.None? ==> free == old(free) && rc == old(rc)
      ensures |old(rc)| == total
      ensures r.Some? ==>
        && r.value in old(free) && r.value < total && old(rc)[r.value] == 0
        && (forall g :: g in old(free) ==> r.value <= g)
        && free == old(free) - {r.value}
        && rc == old(rc)[r.value := 1]
    {
      if freeCount == 0 {
        return None;
      }
      r := Scan();
      if r.Some? {
        Take(r.value);
        hint := r.value + 1;
      }
    }

    /** Drops one reference; the frame becomes free when the last one goes. The
        requires are the KASSERTs of the source. */
    method FreeFrame(f: nat)
      requires Valid() && f < total && f !in free && rc[f] > 0
      modifies this, bitmap, refcount
      ensures Valid()
      ensures rc == old(rc)[f := old(rc)[f] - 1]
      ensures free == if old(rc)[f] == 1 then old(free) + {f} else old(free)
    {
      FreeKeepsSound(bitmap[..], rc, free, freeCount, hint, f);
      refcount[f] := refcount[f] - 1;
      rc := rc[f := rc[f] - 1];
      if refcount[f] > 0 {
        return;
      }
      FrameSetFree(f);
      if f < hint {
        hint := f;
      }
      freeCount := freeCount + 1;
      free := free + {f};
    }

    /** Takes one more reference to a used frame. */
    method RefFrame(f: nat)
      requires Valid() && f < total && f !in free && 0 < rc[f] < REFCOUNT_MAX
      modifies this, bitmap, refcount
      ensures Valid()
      ensures rc == old(rc)[f := old(rc)[f] + 1] && free == old(free)
    {
      refcount[f] := refcount[f] + 1;
      rc := rc[f := rc[f] + 1];
    }

    method Refcount(f: nat) returns (n: nat)
      requires Valid() && f < total
      ensures n == rc[f]
    {
      n := refcount[f];
    }

    /** The lowest run of `count` free frames, or none. */
    method FindRun(count: nat) returns (r: Option<nat>)
      requires Valid() && count > 0
      ensures r.Some? ==> Run(r.value, count) <= free
      ensures r.Some? ==> forall s: nat :: Run(s, count) <= free ==> r.value <= s
      ensures r.None? ==> forall s: nat :: !(Run(s, count) <= free)
    {
      hide Run, Bit, BitFree;
      var start, len := 0, 0;
      for f := 0 to total
        invariant 0 <= len < count && len <= f
        invariant len > 0 ==> start == f - len
        invariant Run(f - len, len) <= free
        // A run beginning before the current one has been seen to break.
        invariant forall s: nat :: s < f - len ==> !(Run(s, count) <= free)
      {
        if BitFree(bitmap[..], f) {
          if len == 0 {
            start := f;
          }
          len := len + 1;
          if len == count {
            return Some(start);
          }
        } else {
          forall s: nat | s < f + 1 ensures !(Run(s, count) <= free) {
            if s >= f - len {
              assert f in Run(s, count);
            }
          }
          len := 0;
        }
      }
      forall s: nat ensures !(Run(s, count) <= free) {
        if s >= total - len {
          assert s + count - 1 in Run(s, count);
        }
      }
      return None;
    }

    /** Takes the lowest adequate run; fails exactly when there is none. */
    method AllocContiguous(count: nat) returns (r: Option<nat>)
      requires Valid()
      modifies this, bitmap, refcount
      ensures Valid()
      ensures r.None? <==> count == 0 || forall s: nat :: !(Run(s, count) <= old(free))
      ensures r.None? ==> free == old(free) && rc == old(rc)
      ensures r.Some? ==>
        && Run(r.value, count) <= old(free)
        && (forall s: nat :: Run(s, count) <= old(free) ==> r.value <= s)
        && free == old(free) - Run(r.value, count)
        && |rc| == |old(rc)|
        && (forall f :: 0 <= f < |rc| ==>
              rc[f] == if r.value <= f < r.value + count then 1 else old(rc)[f])
    {
      if count == 0 {
        return None;
      }
      if freeCount < count {
        forall s: nat ensures !(Run(s, count) <= free) {
          if Run(s, count) <= free { RunNeedsFrames(s, count, free); }
        }
        return None;
      }
      r := FindRun(count);
      if r.Some? {
        TakeRun(r.value, count);
      }
    }

    method TakeRun(start: nat, count: nat)
      requires Valid() && Run(start, count) <= free
      modifies this`free, this`rc, this`freeCount, bitmap, refcount
      ensures Valid()
      ensures free == old(free) - Run(start, count)
      ensures |rc| == |old(rc)|
      ensures forall f :: 0 <= f < |rc| ==>
                rc[f] == if start <= f < start + count then 1 else old(rc)[f]
    {
      for j := start to start + count
        invariant Valid() && |rc| == |old(rc)|
        invariant forall f :: f in free <==> f in old(free) && !(start <= f < j)
        invariant forall f :: 0 <= f < |rc| ==>
                    rc[f] == if start <= f < j then 1 else old(rc)[f]
      {
        assert j in Run(start, count);
        Take(j);
      }
    }

    /** Boot: frees the used frames of [base, base + len), the base rounded down. */
    method RegionMarkFree(base: nat, len: nat)
      requires Valid() && hint == 0
      modifies this, bitmap, refcount
      ensures Valid() && hint == 0
      ensures free == old(free) + MarkedFree(base, len, total)
      ensures |rc| == |old(rc)|
      ensures forall f :: 0 <= f < total ==> rc[f] == if f in free then 0 else old(rc)[f]
    {
      var f, last := base / FRAME_SIZE, (base + len) / FRAME_SIZE;
      ghost var first := f;
      while f < last && f < total
        invariant first <= f
        invariant Valid() && hint == 0 && |rc| == |old(rc)|
        invariant f <= last || f == first
        invariant forall g :: g in free <==> g in old(free) || (first <= g < f && g < total)
        invariant forall g :: 0 <= g < total ==> rc[g] == if g in free then 0 else old(rc)[g]
      {
        if !BitFree(bitmap[..], f) {
          Release(f);
        }
        f := f + 1;
      }
    }

    /** Boot: takes the free frames that meet [base, base + len). */
    method RegionMarkUsed(base: nat, len: nat)
      requires Valid()
      modifies this, bitmap, refcount
      ensures Valid() && hint == old(hint)
      ensures forall f :: f in free <==>
                f in old(free) && !(base / FRAME_SIZE <= f < (base + len + FRAME_SIZE - 1) / FRAME_SIZE)
      ensures |rc| == |old(rc)|
      ensures forall f :: 0 <= f < total ==> rc[f] == if f in old(free) && f !in free then 1 else old(rc)[f]
    {
      var f, last := base / FRAME_SIZE, (base + len + FRAME_SIZE - 1) / FRAME_SIZE;
      ghost var first := f;
      while f < last && f < total
        invariant first <= f
        invariant Valid() && hint == old(hint) && |rc| == |old(rc)|
        invariant f <= last || f == first
        invariant forall g :: g in free <==> g in old(free) && !(first <= g < f)
        invariant forall g :: 0 <= g < total ==> rc[g] == if g in old(free) && g !in free then 1 else old(rc)[g]
      {
        if BitFree(bitmap[..], f) {
          Take(f);
        }
        f := f + 1;
      }
    }
  }

  /** Frame f lies wholly inside [base, base + len). */
  predicate Inside(f: nat, base: nat, len: nat)
  {
    base <= f * FRAME_SIZE && (f + 1) * FRAME_SIZE <= base + len
  }

  /** Rounding the base down is exact only for aligned regions: every frame that
      RegionMarkFree frees lies inside the region if and only if the base is
      frame-aligned, the region ends in the base's own frame, or that frame is not known. */
  lemma MarkFreeStaysInside(base: nat, len: nat, total: nat)
    ensures (forall f :: f in MarkedFree(base, len, total) ==> Inside(f, base, len))
       <==> (base % FRAME_SIZE == 0 || (base + len) / FRAME_SIZE == base / FRAME_SIZE || base / FRAME_SIZE >= total)
  {
    var first := base / FRAME_SIZE;
    assert base == first * FRAME_SIZE + base % FRAME_SIZE;
    assert !Inside(first, base, len) || base % FRAME_SIZE == 0;
    if (base + len) / FRAME_SIZE != first && first < total {
      assert first in MarkedFree(base, len, total);
    }
  }

  /** A region that begins 904 bytes into frame 1 frees that frame. */
  lemma PartFrameFreed()
    ensures 1 in MarkedFree(5000, 8192, 4) && !Inside(1, 5000, 8192)
  {
    assert 5000 / FRAME_SIZE == 1 && (5000 + 8192) / FRAME_SIZE == 3;
  }
}
