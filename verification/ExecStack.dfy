/** The first page of a new program's stack: the strings of argv and envp at the
    top, below them the words that the startup code reads. */
module ExecStack {
  import opened Wrappers
  import Paging
  import opened Words

  type byte = Paging.byte
  type Text = seq<byte>

  const PAGE_SIZE: nat := Paging.PAGE_SIZE
  const STACK_BASE: nat := 0x4010_0000 - 4096
  const MAX_ARGS: nat := 16

  function Qword(st: seq<byte>, off: nat): nat
    requires off + 8 <= |st|
  {
    WordAt(st, off, 8)
  }

  // What the startup code and the program find, from the stack pointer on.

  /** The text at off, up to its NUL. */
  function TextAt(st: seq<byte>, off: nat): Option<Text>
    decreases |st| - off
  {
    if off >= |st| then None
    else if st[off] == 0 then Some([])
    else
      match TextAt(st, off + 1)
      case None => None
      case Some(t) => Some([st[off]] + t)
  }

  function Pointed(st: seq<byte>, ptr: nat): Option<Text>
  {
    if ptr < STACK_BASE then None else TextAt(st, ptr - STACK_BASE)
  }

  /** The texts behind n pointers at off. */
  function Texts(st: seq<byte>, off: nat, n: nat): Option<seq<Text>>
    decreases n
  {
    if n == 0 then Some([])
    else if off + 8 > |st| then None
    else
      match (Pointed(st, Qword(st, off)), Texts(st, off + 8, n - 1))
      case (Some(t), Some(ts)) => Some([t] + ts)
      case _ => None
  }

  /** How many pointers there are before a NULL one. */
  function CountToNull(st: seq<byte>, off: nat): Option<nat>
    decreases |st| - off
  {
    if off + 8 > |st| then None
    else if Qword(st, off) == 0 then Some(0)
    else
      match CountToNull(st, off + 8)
      case None => None
      case Some(n) => Some(n + 1)
  }

  datatype Args = Args(argv: seq<Text>, envp: seq<Text>)

  /** argc from the top word, argv behind it, envp behind its NULL; both vectors end in NULL. */
  function Crt0(st: seq<byte>, rsp: nat): Option<Args>
  {
    if rsp < STACK_BASE || rsp - STACK_BASE + 8 > |st| then None
    else
      var off := rsp - STACK_BASE;
      var argc := Qword(st, off);
      var envp := off + 8 + 8 * argc + 8;
      match (CountToNull(st, off + 8), CountToNull(st, envp))
      case (Some(n), Some(envc)) =>
        if n != argc then None
        else
          match (Texts(st, off + 8, argc), Texts(st, envp, envc)) {
            case (Some(a), Some(e)) => Some(Args(a, e))
            case _ => None
          }
      case _ => None
  }

  // The layout.

  /** The bytes of the texts, NULs included. */
  function Bytes(ts: seq<Text>): nat
  {
    if |ts| == 0 then 0 else Bytes(ts[..|ts| - 1]) + |ts[|ts| - 1]| + 1
  }

  function PointerBytes(argc: nat, envc: nat): nat
  {
    8 * (1 + argc + 1 + envc + 1)
  }

  function Down16(n: nat): nat
  {
    n - n % 16
  }

  /** Do the strings and their pointers fit into the page? */
  predicate Fits(argv: seq<Text>, envp: seq<Text>)
  {
    var n := Bytes(argv) + Bytes(envp);
    n <= PAGE_SIZE && PointerBytes(|argv|, |envp|) <= Down16(PAGE_SIZE - n)
  }

  /** Bytes adds up: each text takes its length and one for its NUL. */
  lemma {:induction false} BytesAdd(a: seq<Text>, b: seq<Text>, t: Text)
    ensures Bytes([t]) == |t| + 1 && Bytes(a + b) == Bytes(a) + Bytes(b)
    decreases |b|
  {
    assert [t][..0] == [];
    if b == [] {
      assert a + b == a;
    } else {
      var rest := b[..|b| - 1];
      assert (a + b)[..|a + b| - 1] == a + rest;
      BytesAdd(a, rest, t);
    }
  }

  predicate TextsOk(ts: seq<Text>)
  {
    forall i :: 0 <= i < |ts| ==> 0 !in ts[i]
  }

  /** The text t and its NUL lie at off. */
  ghost predicate HasText(st: seq<byte>, off: nat, t: Text)
  {
    off + |t| < |st| && st[off..off + |t|] == t && st[off + |t|] == 0
  }

  lemma {:induction false} TextFound(st: seq<byte>, off: nat, t: Text)
    requires HasText(st, off, t) && 0 !in t
    ensures TextAt(st, off) == Some(t)
    decreases |t|
  {
    if |t| > 0 {
      assert st[off] == st[off..off + |t|][0] == t[0];
      assert st[off + 1..off + |t|] == t[1..] && t == [t[0]] + t[1..];
      TextFound(st, off + 1, t[1..]);
    }
  }

  /** Each pointer leads to its text, at or above lo. */
  ghost predicate Placed(st: seq<byte>, ts: seq<Text>, ptrs: seq<nat>, lo: nat)
  {
    && |ptrs| == |ts|
    && forall i :: 0 <= i < |ts| ==>
         STACK_BASE + lo <= ptrs[i] < STACK_BASE + PAGE_SIZE && HasText(st, ptrs[i] - STACK_BASE, ts[i])
  }

  /** The words from off on are ws. */
  ghost predicate HasWords(st: seq<byte>, off: nat, ws: seq<nat>)
  {
    off + 8 * |ws| <= |st| && forall i :: 0 <= i < |ws| ==> Qword(st, off + 8 * i) == ws[i]
  }

  /** Bytes from lo on are as before. */
  ghost predicate SameFrom(st: seq<byte>, st': seq<byte>, lo: nat)
  {
    |st'| == |st| && lo <= |st| && st'[lo..] == st[lo..]
  }

  lemma SameTrans(a: seq<byte>, b: seq<byte>, c: seq<byte>, lo: nat, lo': nat)
    requires SameFrom(a, b, lo) && SameFrom(b, c, lo') && lo' <= lo
    ensures SameFrom(a, c, lo)
  {
    assert c[lo..] == c[lo'..][lo - lo'..] && b[lo..] == b[lo'..][lo - lo'..];
  }

  lemma PlacedStays(st: seq<byte>, st': seq<byte>, ts: seq<Text>, ptrs: seq<nat>, lo: nat)
    requires Placed(st, ts, ptrs, lo) && SameFrom(st, st', lo)
    ensures Placed(st', ts, ptrs, lo)
  {
    forall i | 0 <= i < |ts| ensures HasText(st', ptrs[i] - STACK_BASE, ts[i]) {
      TextStays(st, st', lo, ptrs[i] - STACK_BASE, ts[i]);
    }
  }

  lemma TextStays(st: seq<byte>, st': seq<byte>, lo: nat, off: nat, t: Text)
    requires HasText(st, off, t) && SameFrom(st, st', lo) && lo <= off
    ensures HasText(st', off, t)
  {
    assert forall k :: lo <= k < |st| ==> st'[k] == st'[lo..][k - lo] && st[k] == st[lo..][k - lo];
  }

  lemma WordsStay(st: seq<byte>, st': seq<byte>, lo: nat, off: nat, ws: seq<nat>)
    requires HasWords(st, off, ws) && SameFrom(st, st', lo) && lo <= off
    ensures HasWords(st', off, ws)
  {
    assert forall k :: lo <= k < |st| ==> st'[k] == st'[lo..][k - lo] && st[k] == st[lo..][k - lo];
    forall i | 0 <= i < |ws| ensures Qword(st', off + 8 * i) == ws[i] {
      assert st'[off + 8 * i..off + 8 * i + 8] == st[off + 8 * i..off + 8 * i + 8];
    }
  }

  method PushQword(stack: array<byte>, sp: nat, v: nat) returns (ok: bool, sp': nat)
    requires stack.Length == PAGE_SIZE && sp <= PAGE_SIZE && v < 0x1_0000_0000_0000_0000
    modifies stack
    ensures ok <==> sp >= 8
    ensures !ok ==> stack[..] == old(stack[..])
    ensures ok ==> sp' == sp - 8 && Qword(stack[..], sp') == v && SameFrom(old(stack[..]), stack[..], sp)
    ensures ok ==> Eight(stack[..], sp') == v
  {
    if sp < 8 {
      return false, sp;
    }
    sp' := sp - 8;
    var bytes := Le(v, 8);
    forall k | 0 <= k < 8 {
      stack[sp' + k] := bytes[k];
    }
    ok := true;
    EightBytes();
    WordIs(stack[..], sp');
    LeRoundTrip(v, 8);
    assert stack[..][sp'..sp' + 8] == bytes;
  }

  /** Pushes ws, last word first. */
  method PushAll(stack: array<byte>, sp: nat, ws: seq<nat>) returns (ok: bool, sp': nat)
    requires stack.Length == PAGE_SIZE && sp <= PAGE_SIZE
    requires forall i :: 0 <= i < |ws| ==> ws[i] < 0x1_0000_0000_0000_0000
    modifies stack
    ensures ok <==> sp >= 8 * |ws|
    ensures ok ==> sp' == sp - 8 * |ws| && HasWords(stack[..], sp', ws) && SameFrom(old(stack[..]), stack[..], sp)
  {
    hide Eight, Qword, HasWords, SameFrom;
    sp' := sp;
    var i := |ws|;
    NothingPushed(stack[..], sp);
    assert ws[i..] == [];
    while i > 0
      invariant 0 <= i <= |ws| && sp' == sp - 8 * (|ws| - i) && HasWords(stack[..], sp', ws[i..])
      invariant SameFrom(old(stack[..]), stack[..], sp)
    {
      ghost var st := stack[..];
      ok, sp' := PushQword(stack, sp', ws[i - 1]);
      if !ok {
        return false, sp';
      }
      i := i - 1;
      assert sp' + 8 == sp - 8 * (|ws| - (i + 1));
      SameTrans(old(stack[..]), st, stack[..], sp, sp' + 8);
      WordsStay(st, stack[..], sp' + 8, sp' + 8, ws[i + 1..]);
      WordsPlus(stack[..], sp', ws[i], ws[i + 1..]);
      assert ws[i..] == [ws[i]] + ws[i + 1..];
    }
    assert ws[0..] == ws;
    ok := true;
  }

  lemma NothingPushed(st: seq<byte>, sp: nat)
    requires sp <= |st|
    ensures HasWords(st, sp, []) && SameFrom(st, st, sp)
  {}

  lemma WordsPlus(st: seq<byte>, off: nat, w: nat, ws: seq<nat>)
    requires off + 8 <= |st| && Qword(st, off) == w && HasWords(st, off + 8, ws)
    ensures HasWords(st, off, [w] + ws)
  {
    forall i | 0 <= i < |ws| + 1 ensures Qword(st, off + 8 * i) == ([w] + ws)[i] {
      if i > 0 { assert off + 8 * i == off + 8 + 8 * (i - 1); }
    }
  }

  method PlaceString(stack: array<byte>, sp: nat, t: Text) returns (ok: bool, sp': nat, ptr: nat)
    requires stack.Length == PAGE_SIZE && sp <= PAGE_SIZE
    modifies stack
    ensures ok <==> |t| + 1 <= sp
    ensures ok ==>
      && sp' == sp - |t| - 1 && ptr == STACK_BASE + sp'
      && HasText(stack[..], sp', t) && SameFrom(old(stack[..]), stack[..], sp)
  {
    var len := |t| + 1;
    if len > sp {
      return false, sp, 0;
    }
    sp' := sp - len;
    forall k | 0 <= k < len {
      stack[sp' + k] := (t + [0])[k];
    }
    assert stack[..][sp'..sp' + |t|] == t;
    ok, ptr := true, STACK_BASE + sp';
  }

  /** Places the texts, first one highest. */
  method PlaceAll(stack: array<byte>, sp: nat, ts: seq<Text>) returns (ok: bool, sp': nat, ptrs: seq<nat>)
    requires stack.Length == PAGE_SIZE && sp <= PAGE_SIZE
    modifies stack
    ensures ok <==> Bytes(ts) <= sp
    ensures ok ==>
      sp' == sp - Bytes(ts) && Placed(stack[..], ts, ptrs, sp') && SameFrom(old(stack[..]), stack[..], sp)
  {
    hide SameFrom, HasText;
    sp', ptrs := sp, [];
    SameBelow(stack[..], sp);
    for i := 0 to |ts|
      invariant Bytes(ts[..i]) <= sp && sp' == sp - Bytes(ts[..i])
      invariant Placed(stack[..], ts[..i], ptrs, sp') && SameFrom(old(stack[..]), stack[..], sp)
    {
      ghost var st, lo := stack[..], sp';
      BytesStep(ts, i);
      var ptr;
      ok, sp', ptr := PlaceString(stack, sp', ts[i]);
      if !ok {
        BytesGrow(ts, i + 1);
        return;
      }
      SameTrans(old(stack[..]), st, stack[..], sp, lo);
      PlacedStays(st, stack[..], ts[..i], ptrs, lo);
      assert ts[..i + 1] == ts[..i] + [ts[i]];
      ptrs := ptrs + [ptr];
    }
    assert ts[..|ts|] == ts;
    ok := true;
  }

  lemma BytesStep(ts: seq<Text>, i: nat)
    requires i < |ts|
    ensures Bytes(ts[..i + 1]) == Bytes(ts[..i]) + |ts[i]| + 1
  {
    assert ts[..i + 1][..i] == ts[..i];
  }

  lemma {:induction false} BytesGrow(ts: seq<Text>, i: nat)
    requires i <= |ts|
    ensures Bytes(ts[..i]) <= Bytes(ts)
    decreases |ts| - i
  {
    if i < |ts| {
      BytesStep(ts, i);
      BytesGrow(ts, i + 1);
    } else {
      assert ts[..i] == ts;
    }
  }

  // Reading back.

  lemma {:induction false} TextsFound(st: seq<byte>, off: nat, ts: seq<Text>, ptrs: seq<nat>, lo: nat)
    requires Placed(st, ts, ptrs, lo) && HasWords(st, off, ptrs) && TextsOk(ts)
    ensures Texts(st, off, |ts|) == Some(ts)
    decreases |ts|
  {
    hide HasWords, Qword, HasText, TextAt;
    if |ts| > 0 {
      WordsTail(st, off, ptrs);
      WordsFit(st, off, ptrs);
      TextFound(st, ptrs[0] - STACK_BASE, ts[0]);
      PlacedTail(st, ts, ptrs, lo);
      TextsFound(st, off + 8, ts[1..], ptrs[1..], lo);
      assert ts == [ts[0]] + ts[1..];
    }
  }

  lemma WordsFit(st: seq<byte>, off: nat, ws: seq<nat>)
    requires HasWords(st, off, ws)
    ensures off + 8 * |ws| <= |st|
  {}

  lemma PlacedTail(st: seq<byte>, ts: seq<Text>, ptrs: seq<nat>, lo: nat)
    requires Placed(st, ts, ptrs, lo) && TextsOk(ts) && |ts| > 0
    ensures Placed(st, ts[1..], ptrs[1..], lo) && TextsOk(ts[1..])
  {}

  lemma WordsTail(st: seq<byte>, off: nat, ws: seq<nat>)
    requires HasWords(st, off, ws) && |ws| > 0
    ensures HasWords(st, off + 8, ws[1..]) && Qword(st, off) == ws[0]
  {
    assert Qword(st, off + 8 * 0) == ws[0];
    forall i | 0 <= i < |ws| - 1 ensures Qword(st, off + 8 + 8 * i) == ws[1..][i] {
      assert off + 8 + 8 * i == off + 8 * (i + 1);
    }
  }

  lemma {:induction false} NullFound(st: seq<byte>, off: nat, ptrs: seq<nat>)
    requires HasWords(st, off, ptrs + [0]) && forall i :: 0 <= i < |ptrs| ==> ptrs[i] != 0
    ensures CountToNull(st, off) == Some(|ptrs|)
    decreases |ptrs|
  {
    WordsTail(st, off, ptrs + [0]);
    if |ptrs| > 0 {
      assert (ptrs + [0])[1..] == ptrs[1..] + [0];
      NullFound(st, off + 8, ptrs[1..]);
    }
  }

  /** The words under the strings. */
  function PointerWords(argc: nat, argv: seq<nat>, envp: seq<nat>): seq<nat>
  {
    [argc] + (argv + [0]) + (envp + [0])
  }

  lemma WordsSplit(st: seq<byte>, off: nat, a: seq<nat>, b: seq<nat>)
    requires HasWords(st, off, a + b)
    ensures HasWords(st, off, a) && HasWords(st, off + 8 * |a|, b)
  {
    forall i | 0 <= i < |a| ensures Qword(st, off + 8 * i) == a[i] { assert (a + b)[i] == a[i]; }
    forall i | 0 <= i < |b| ensures Qword(st, off + 8 * |a| + 8 * i) == b[i] {
      assert (a + b)[|a| + i] == b[i] && off + 8 * |a| + 8 * i == off + 8 * (|a| + i);
    }
  }

  lemma WordsJoin(st: seq<byte>, off: nat, a: seq<nat>, b: seq<nat>)
    requires HasWords(st, off, a) && HasWords(st, off + 8 * |a|, b)
    ensures HasWords(st, off, a + b)
  {
    forall i | 0 <= i < |a + b| ensures Qword(st, off + 8 * i) == (a + b)[i] {
      if i >= |a| { assert off + 8 * i == off + 8 * |a| + 8 * (i - |a|); }
    }
  }

  /** A NULL-terminated vector reads back as its texts. */
  lemma VectorReads(st: seq<byte>, off: nat, ts: seq<Text>, ptrs: seq<nat>, lo: nat)
    requires Placed(st, ts, ptrs, lo) && TextsOk(ts) && HasWords(st, off, ptrs + [0])
    ensures CountToNull(st, off) == Some(|ts|) && Texts(st, off, |ts|) == Some(ts)
  {
    hide HasWords, Texts, CountToNull;
    WordsSplit(st, off, ptrs, [0]);
    NullFound(st, off, ptrs);
    TextsFound(st, off, ts, ptrs, lo);
  }

  /** The startup code recovers what was placed. */
  lemma Crt0Reads(st: seq<byte>, off: nat, argv: seq<Text>, envp: seq<Text>, ap: seq<nat>, ep: seq<nat>, lo: nat)
    requires Placed(st, argv, ap, lo) && Placed(st, envp, ep, lo) && TextsOk(argv) && TextsOk(envp)
    requires HasWords(st, off, PointerWords(|argv|, ap, ep)) && off + 8 <= |st|
    ensures Crt0(st, STACK_BASE + off) == Some(Args(argv, envp))
  {
    hide HasWords, Texts, CountToNull, Qword, TextsOk;
    var av, ev := ap + [0], ep + [0];
    WordsSplit(st, off, [|argv|] + av, ev);
    WordsSplit(st, off, [|argv|], av);
    WordsTail(st, off, [|argv|]);
    VectorReads(st, off + 8, argv, ap, lo);
    var at := off + 8 * |[|argv|] + av|;
    assert at == off + 8 + 8 * |argv| + 8;
    VectorReads(st, at, envp, ep, lo);
  }

  /** Pushes NULL and then ps, so that it reads as a NULL-terminated vector. */
  method PushVector(stack: array<byte>, sp: nat, ps: seq<nat>) returns (sp': nat)
    requires stack.Length == PAGE_SIZE && sp <= PAGE_SIZE && forall i :: 0 <= i < |ps| ==> ps[i] < 0x1_0000_0000
    requires sp >= 8 * (|ps| + 1)
    modifies stack
    ensures sp' == sp - 8 * (|ps| + 1)
    ensures HasWords(stack[..], sp', ps + [0]) && SameFrom(old(stack[..]), stack[..], sp)
  {
    hide HasWords, SameFrom, Qword;
    var ok;
    ok, sp' := PushQword(stack, sp, 0);
    assert ok;
    ghost var st := stack[..];
    OneWord(st, sp', 0);
    ghost var lo := sp';
    ok, sp' := PushAll(stack, sp', ps);
    assert ok;
    SameTrans(old(stack[..]), st, stack[..], sp, lo);
    WordsStay(st, stack[..], lo, lo, [0]);
    WordsJoin(stack[..], sp', ps, [0]);
  }

  lemma OneWord(st: seq<byte>, off: nat, w: nat)
    requires off + 8 <= |st| && Qword(st, off) == w
    ensures HasWords(st, off, [w])
  {}

  /** Pushes the words below the strings, the stack top aligned to
      16. Once the size is checked no push can fail. */
  method PushPointers(stack: array<byte>, top: nat, ap: seq<nat>, ep: seq<nat>) returns (ok: bool, sp: nat)
    requires stack.Length == PAGE_SIZE && top <= PAGE_SIZE && |ap| <= MAX_ARGS
    requires forall i :: 0 <= i < |ap| ==> ap[i] < 0x1_0000_0000
    requires forall i :: 0 <= i < |ep| ==> ep[i] < 0x1_0000_0000
    modifies stack
    ensures ok <==> PointerBytes(|ap|, |ep|) <= Down16(top)
    ensures ok ==>
      && sp % 16 == 0 && sp + PointerBytes(|ap|, |ep|) <= top
      && HasWords(stack[..], sp, PointerWords(|ap|, ap, ep)) && SameFrom(old(stack[..]), stack[..], top)
  {
    hide HasWords, SameFrom, Qword, Down16;
    sp := Down16(top);
    var bytes := PointerBytes(|ap|, |ep|);
    if bytes > sp {
      return false, sp;
    }
    AlignTop(top, 3 + |ap| + |ep|);
    if (sp - bytes) % 16 != 0 {
      sp := sp - 8;
    }
    ghost var rest := sp - bytes;
    assert rest % 16 == 0 && rest >= 0 && sp <= top;
    SameBelow(stack[..], sp);
    ghost var first, s0 := sp, stack[..];
    sp := PushVector(stack, sp, ep);
    ghost var lo1, s1 := sp, stack[..];
    sp := PushVector(stack, sp, ap);
    ghost var lo2, s2 := sp, stack[..];
    SameTrans(s0, s1, s2, first, lo1);
    WordsStay(s1, s2, lo1, lo1, ep + [0]);
    WordsJoin(s2, lo2, ap + [0], ep + [0]);
    ok, sp := PushQword(stack, sp, |ap|);
    assert ok;
    SameTrans(s0, s2, stack[..], first, lo2);
    WordsStay(s2, stack[..], lo2, lo2, (ap + [0]) + (ep + [0]));
    OneWord(stack[..], sp, |ap|);
    WordsJoin(stack[..], sp, [|ap|], (ap + [0]) + (ep + [0]));
    assert PointerWords(|ap|, ap, ep) == [|ap|] + ((ap + [0]) + (ep + [0]));
    SameAbove(s0, stack[..], first, top);
    assert sp == rest;
  }

  /** Room for n words below top stays room for them when the end is aligned. */
  lemma AlignTop(top: nat, n: nat)
    requires 8 * n <= Down16(top)
    ensures ghost var rest := Down16(top) - 8 * n;
      if rest % 16 == 0 then Down16(top) <= top else rest >= 8 && (rest - 8) % 16 == 0 && Down16(top) - 8 <= top
  {}

  lemma SameBelow(st: seq<byte>, lo: nat)
    requires lo <= |st|
    ensures SameFrom(st, st, lo)
  {}

  lemma SameAbove(st: seq<byte>, st': seq<byte>, lo: nat, hi: nat)
    requires SameFrom(st, st', lo) && lo <= hi <= |st|
    ensures SameFrom(st, st', hi)
  {
    assert st'[hi..] == st'[lo..][hi - lo..] && st[hi..] == st[lo..][hi - lo..];
  }

  datatype Outcome = Built(rsp: nat) | TooBig | Invalid

  /** Lays out the stack page: the startup code reads back exactly argv and envp,
      the stack top is 16-byte aligned, and the vectors end below the
      strings. Fails exactly when there are too many strings or they do not fit. */
  method BuildExecStack(stack: array<byte>, argv: seq<Text>, envp: seq<Text>) returns (r: Outcome)
    requires stack.Length == PAGE_SIZE && TextsOk(argv) && TextsOk(envp)
    modifies stack
    ensures r == Invalid <==> |argv| > MAX_ARGS || |envp| > MAX_ARGS
    ensures r != Invalid ==> (r.Built? <==> Fits(argv, envp))
    ensures r != Invalid ==> ghost var n := Bytes(argv) + Bytes(envp);
      r.Built? <==> n <= 4096 && 8 * (|argv| + |envp| + 3) <= (4096 - n) / 16 * 16
    ensures r.Built? ==>
      && Crt0(stack[..], r.rsp) == Some(Args(argv, envp)) && r.rsp % 16 == 0 && r.rsp >= STACK_BASE
      && r.rsp + PointerBytes(|argv|, |envp|) + Bytes(argv) + Bytes(envp) <= STACK_BASE + PAGE_SIZE
  {
    hide HasWords, SameFrom, Placed, TextsOk, Crt0;
    if |argv| > MAX_ARGS || |envp| > MAX_ARGS {
      return Invalid;
    }
    forall k | 0 <= k < PAGE_SIZE {
      stack[k] := 0;
    }
    var ok, sp, ap := PlaceAll(stack, PAGE_SIZE, argv);
    if !ok {
      return TooBig;
    }
    ghost var s1, lo1 := stack[..], sp;
    var ep;
    ok, sp, ep := PlaceAll(stack, sp, envp);
    if !ok {
      return TooBig;
    }
    ghost var s2, lo2 := stack[..], sp;
    PlacedStays(s1, s2, argv, ap, lo1);
    PlacedLower(s2, argv, ap, lo1, lo2);
    PtrsSmall(s2, argv, ap, lo2);
    PtrsSmall(s2, envp, ep, lo2);
    ok, sp := PushPointers(stack, sp, ap, ep);
    if !ok {
      return TooBig;
    }
    PlacedStays(s2, stack[..], argv, ap, lo2);
    PlacedStays(s2, stack[..], envp, ep, lo2);
    Crt0Reads(stack[..], sp, argv, envp, ap, ep, lo2);
    return Built(STACK_BASE + sp);
  }

  /** The pointer leads to the text t and its NUL. */
  ghost predicate PointsAt(st: seq<byte>, ptr: nat, t: Text)
  {
    ptr >= STACK_BASE && HasText(st, ptr - STACK_BASE, t)
  }

  /** From off on there are pointers to the texts ts, in order. */
  ghost predicate Pointers(st: seq<byte>, off: nat, ts: seq<Text>)
  {
    forall i :: 0 <= i < |ts| ==> off + 8 * i + 8 <= |st| && PointsAt(st, Eight(st, off + 8 * i), ts[i])
  }

  lemma {:induction false} TextMeans(st: seq<byte>, off: nat)
    ensures TextAt(st, off).Some? ==> HasText(st, off, TextAt(st, off).value)
    decreases |st| - off
  {
    if off < |st| && st[off] != 0 {
      TextMeans(st, off + 1);
      if TextAt(st, off + 1).Some? {
        var t := TextAt(st, off + 1).value;
        assert st[off..off + 1 + |t|] == [st[off]] + st[off + 1..off + 1 + |t|];
      }
    }
  }

  lemma {:induction false} TextsMean(st: seq<byte>, off: nat, n: nat)
    ensures Texts(st, off, n).Some? ==>
      |Texts(st, off, n).value| == n && Pointers(st, off, Texts(st, off, n).value)
    decreases n
  {
    hide Eight, PointsAt, Pointers;
    if n > 0 && off + 8 <= |st| {
      WordIs(st, off);
      var ptr := Qword(st, off);
      TextsMean(st, off + 8, n - 1);
      if Texts(st, off, n).Some? {
        PointedMeans(st, ptr);
        OneMorePointer(st, off, Pointed(st, ptr).value, Texts(st, off + 8, n - 1).value);
      }
    } else if n == 0 {
      NoPointers(st, off);
    }
  }

  lemma NoPointers(st: seq<byte>, off: nat)
    ensures Pointers(st, off, [])
  {}

  lemma PointedMeans(st: seq<byte>, ptr: nat)
    ensures Pointed(st, ptr).Some? ==> PointsAt(st, ptr, Pointed(st, ptr).value)
  {
    if ptr >= STACK_BASE { TextMeans(st, ptr - STACK_BASE); }
  }

  lemma OneMorePointer(st: seq<byte>, off: nat, t: Text, rest: seq<Text>)
    requires off + 8 <= |st| && PointsAt(st, Eight(st, off), t) && Pointers(st, off + 8, rest)
    ensures Pointers(st, off, [t] + rest)
  {
    hide Eight, PointsAt;
    var ts := [t] + rest;
    forall i | 0 <= i < |ts| ensures off + 8 * i + 8 <= |st| && PointsAt(st, Eight(st, off + 8 * i), ts[i]) {
      if i > 0 { assert ts[i] == rest[i - 1] && off + 8 * i == off + 8 + 8 * (i - 1); }
    }
  }

  lemma {:induction false} NullMeans(st: seq<byte>, off: nat)
    ensures CountToNull(st, off).Some? ==>
      var n := CountToNull(st, off).value; off + 8 * n + 8 <= |st| && Eight(st, off + 8 * n) == 0
    decreases |st| - off
  {
    hide Eight;
    if off + 8 <= |st| {
      WordIs(st, off);
      NullMeans(st, off + 8);
      if CountToNull(st, off + 8).Some? {
        var n := CountToNull(st, off + 8).value;
        assert off + 8 + 8 * n == off + 8 * (n + 1);
      }
    }
  }

  /** Pointers to the texts, and then a NULL. */
  ghost predicate Vector(st: seq<byte>, off: nat, ts: seq<Text>)
  {
    Pointers(st, off, ts) && off + 8 * |ts| + 8 <= |st| && Eight(st, off + 8 * |ts|) == 0
  }

  lemma VectorMeans(st: seq<byte>, off: nat, ts: seq<Text>)
    requires CountToNull(st, off) == Some(|ts|) && Texts(st, off, |ts|) == Some(ts)
    ensures Vector(st, off, ts)
  {
    hide Eight, PointsAt, Texts, CountToNull;
    NullMeans(st, off);
    TextsMean(st, off, |ts|);
  }

  lemma TextsCount(st: seq<byte>, off: nat, n: nat)
    ensures Texts(st, off, n).Some? ==> |Texts(st, off, n).value| == n
  {
    TextsMean(st, off, n);
  }

  /** What the startup code finds, byte by byte: argc, the vector of argv and, right
      behind it, the vector of envp. */
  lemma Crt0Means(st: seq<byte>, rsp: nat, a: Args)
    requires Crt0(st, rsp) == Some(a)
    ensures rsp >= STACK_BASE && var off := rsp - STACK_BASE;
      && off + 8 <= |st| && Eight(st, off) == |a.argv|
      && Vector(st, off + 8, a.argv) && Vector(st, off + 8 + 8 * (|a.argv| + 1), a.envp)
  {
    hide Eight, Vector, Texts, CountToNull;
    var off := rsp - STACK_BASE;
    WordIs(st, off);
    var argc := Qword(st, off);
    var envp := off + 8 + 8 * argc + 8;
    TextsCount(st, off + 8, argc);
    VectorMeans(st, off + 8, a.argv);
    TextsCount(st, envp, CountToNull(st, envp).value);
    VectorMeans(st, envp, a.envp);
  }

  lemma PlacedLower(st: seq<byte>, ts: seq<Text>, ptrs: seq<nat>, lo: nat, lo': nat)
    requires Placed(st, ts, ptrs, lo) && lo' <= lo
    ensures Placed(st, ts, ptrs, lo')
  {}

  lemma PtrsSmall(st: seq<byte>, ts: seq<Text>, ptrs: seq<nat>, lo: nat)
    requires Placed(st, ts, ptrs, lo)
    ensures |ptrs| == |ts| && forall i :: 0 <= i < |ptrs| ==> ptrs[i] < 0x1_0000_0000
  {}
}
