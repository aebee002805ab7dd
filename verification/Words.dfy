/** Little-endian words, as memory and file headers hold them. */
module Words {
  import Paging

  type byte = Paging.byte

  function Le(v: nat, n: nat): (s: seq<byte>)
    ensures |s| == n
  {
    if n == 0 then [] else [v % 256] + Le(v / 256, n - 1)
  }

  function FromLe(s: seq<byte>): nat
  {
    if |s| == 0 then 0 else s[0] + 256 * FromLe(s[1..])
  }

  function Pow256(n: nat): nat
  {
    if n == 0 then 1 else 256 * Pow256(n - 1)
  }

  lemma {:induction false} LeRoundTrip(v: nat, n: nat)
    requires v < Pow256(n)
    ensures FromLe(Le(v, n)) == v
  {
    if n > 0 {
      LeRoundTrip(v / 256, n - 1);
      assert Le(v, n)[1..] == Le(v / 256, n - 1);
    }
  }

  lemma {:induction false} FromLeRoundTrip(s: seq<byte>)
    ensures Le(FromLe(s), |s|) == s
  {
    if s != [] {
      FromLeRoundTrip(s[1..]);
      assert FromLe(s) / 256 == FromLe(s[1..]);
      assert s == [s[0]] + s[1..];
    }
  }

  lemma MulOrder(m: nat, a: int, b: int)
    ensures a < b ==> m * a + m <= m * b
  {
    if a < b { assert m * (a + 1) <= m * b; }
  }

  lemma Quotient(v: nat, m: nat, q: nat, r: nat)
    requires v == m * q + r && r < m
    ensures v / m == q
  {
    var k := v / m;
    assert m * k + v % m == m * q + r;
    MulOrder(m, k, q);
    MulOrder(m, q, k);
  }

  lemma DivTwice(v: nat, p: nat)
    requires p > 0
    ensures v / 256 / p == v / (256 * p)
  {
    var q, r := v / (256 * p), v % (256 * p);
    var x := p * q;
    assert v == 256 * x + r;
    Quotient(v / 256, p, q, r / 256);
  }

  lemma PowPositive(n: nat)
    ensures Pow256(n) > 0
  {}

  /** Byte k of a word is its digit of weight 256^k: the lowest one comes first. */
  lemma {:induction false} LeByte(v: nat, n: nat, k: nat)
    requires k < n
    ensures Pow256(k) > 0 && Le(v, n)[k] == v / Pow256(k) % 256
  {
    PowPositive(k);
    if k > 0 {
      PowPositive(k - 1);
      LeByte(v / 256, n - 1, k - 1);
      DivTwice(v, Pow256(k - 1));
    }
  }

  // Words of two, four and eight bytes as the processor reads them.

  function Two(s: seq<byte>, off: nat): nat
    requires off + 2 <= |s|
  {
    s[off] as int + 0x100 * s[off + 1] as int
  }

  function Four(s: seq<byte>, off: nat): nat
    requires off + 4 <= |s|
  {
    s[off] as int + 0x100 * s[off + 1] as int + 0x1_0000 * s[off + 2] as int + 0x100_0000 * s[off + 3] as int
  }

  function Eight(s: seq<byte>, off: nat): nat
    requires off + 8 <= |s|
  {
    s[off] as int + 0x100 * s[off + 1] as int + 0x1_0000 * s[off + 2] as int + 0x100_0000 * s[off + 3] as int
    + 0x1_0000_0000 * s[off + 4] as int + 0x100_0000_0000 * s[off + 5] as int
    + 0x1_0000_0000_0000 * s[off + 6] as int + 0x100_0000_0000_0000 * s[off + 7] as int
  }

  lemma WordIs(s: seq<byte>, off: nat)
    ensures off + 2 <= |s| ==> WordAt(s, off, 2) == Two(s, off)
    ensures off + 4 <= |s| ==> WordAt(s, off, 4) == Four(s, off)
    ensures off + 8 <= |s| ==> WordAt(s, off, 8) == Eight(s, off)
  {
    if off + 2 <= |s| { FirstTwo(s[off..off + 2]); }
    if off + 4 <= |s| { FirstFour(s[off..off + 4]); }
    if off + 8 <= |s| {
      var t := s[off..off + 8];
      FirstFour(t);
      FirstFour(t[4..]);
    }
  }

  lemma FirstFour(s: seq<byte>)
    requires |s| >= 4
    ensures FromLe(s) == Four(s, 0) + 0x1_0000_0000 * FromLe(s[4..])
  {
    FirstTwo(s);
    FirstTwo(s[2..]);
    assert s[2..][2..] == s[4..];
  }

  lemma FirstTwo(s: seq<byte>)
    requires |s| >= 2
    ensures FromLe(s) == Two(s, 0) + 0x1_0000 * FromLe(s[2..])
  {
    assert s[1..][1..] == s[2..];
  }

  lemma EightBytes()
    ensures Pow256(8) == 0x1_0000_0000_0000_0000
  {
    assert Pow256(4) == 0x1_0000_0000;
    assert Pow256(6) == 0x1_0000_0000_0000;
  }

  /** The n-byte word at off. */
  function WordAt(s: seq<byte>, off: nat, n: nat): nat
    requires off + n <= |s|
  {
    FromLe(s[off..off + n])
  }
}
