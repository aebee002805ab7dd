/** Copying the mappings of one space to another: what has been copied while
    the loops of the cloner run, and the tables the copy needs. */
module Share {
  import opened Wrappers
  import opened Paging
  import opened Pmm
  import opened Tables
  import opened Views
  import opened Prune

  /** Frames that are free or hold a table: moving one to the other keeps the sum. */
  ghost function Balance(s: Sys): nat
  {
    |s.free| + |s.tree|
  }

  lemma {:induction false} MoveBack(p: Path, r: nat, d: nat)
    requires SpaceOf(p) == Private(r)
    ensures Move(Move(p, d), r) == p
  {
    if p.Sub? { MoveBack(p.up, r, d); }
  }

  lemma {:induction false} MoveBelow(l: Path, p: Path, d: nat)
    requires Below(l, p)
    ensures Below(Move(l, d), Move(p, d))
  {
    if l != p { MoveBelow(l.up, p, d); }
  }

  /** Every ancestor of a private table or leaf holds a table. */
  lemma {:induction false} AncestorsIn(s: Sys, l: Path, p: Path)
    requires Inv(s, None) && IsPrivate(l) && Below(l, p) && l != p && (l in s.leaf || l in s.tree)
    ensures p in s.tree
  {
    assert LeafOk(s.tree, s.leaf, s.users, l) && NodeOk(s.mem, s.tree, s.owner, l);
    assert SpaceOf(l.up) == SpaceOf(l);
    if l.up != p { AncestorsIn(s, l.up, p); }
  }

  /** The tables a copy of space r needs: the root, the low table, and the
      tables on the way to some mapping. */
  ghost function Needed(s: Sys, r: nat): set<Path>
  {
    set p | p in s.tree && SpaceOf(p) == Private(r) &&
            (p == Root(Private(r)) || p == Sub(Root(Private(r)), 0) || exists l :: l in Maps(s) && Below(l, p))
  }

  /** Tables were added to space d only, none that the copy does not need. */
  ghost predicate GrewTree(s: Sys, s': Sys, src: nat, d: nat)
  {
    && (forall q :: q in s.tree ==> q in s'.tree && s'.tree[q] == s.tree[q])
    && (forall q :: q in s'.tree && q !in s.tree ==> SpaceOf(q) == Private(d) && Move(q, src) in Needed(s, src))
  }

  /** The mappings of all spaces but d stand. */
  ghost predicate SameElsewhere(m: map<Path, Mapped>, m': map<Path, Mapped>, d: nat)
  {
    && (forall l :: SpaceOf(l) != Private(d) ==> (l in m' <==> l in m))
    && (forall l :: SpaceOf(l) != Private(d) && l in m ==> m'[l] == m[l])
  }

  ghost predicate Grew(s: Sys, s': Sys, src: nat, d: nat)
  {
    GrewTree(s, s', src, d) && SameElsewhere(Maps(s), Maps(s'), d) && Balance(s') == Balance(s) && Kept(s, s')
  }

  /** The mappings at the positions R of space src have been copied to d. */
  ghost predicate Copied(s: Sys, s': Sys, src: nat, d: nat, R: set<Path>)
  {
    && (forall x :: x in R ==> x in Maps(s) && SpaceOf(x) == Private(src))
    && (forall m :: SpaceOf(m) == Private(d) ==>
          (m in Maps(s') <==> m in Maps(s) || Move(m, src) in R))
    && (forall m :: SpaceOf(m) == Private(d) && Move(m, src) in R ==> Maps(s')[m] == Maps(s)[Move(m, src)])
    && (forall m :: SpaceOf(m) == Private(d) && Move(m, src) !in R && m in Maps(s) ==> Maps(s')[m] == Maps(s)[m])
  }

  lemma NeededSame(s: Sys, s': Sys, src: nat, d: nat)
    requires Grew(s, s', src, d) && src != d
    ensures Needed(s', src) == Needed(s, src)
  {
    forall p | SpaceOf(p) == Private(src) ensures p in Needed(s', src) <==> p in Needed(s, src) {
      forall l | Below(l, p) ensures l in Maps(s') <==> l in Maps(s) { BelowSpace(l, p); }
    }
  }

  lemma GrewTrans(a: Sys, b: Sys, c: Sys, src: nat, d: nat)
    requires Grew(a, b, src, d) && Grew(b, c, src, d) && src != d
    ensures Grew(a, c, src, d)
  {
    NeededSame(a, b, src, d);
    KeptTrans(a, b, c);
  }

  lemma CopiedTrans(a: Sys, b: Sys, c: Sys, src: nat, d: nat, R: set<Path>, Q: set<Path>)
    requires Grew(a, b, src, d) && src != d
    requires Copied(a, b, src, d, R) && Copied(b, c, src, d, Q)
    ensures Copied(a, c, src, d, R + Q)
  {}

  /** The mappings of space src under the first i entries of the table at p, or all under p. */
  ghost function Part(s: Sys, p: Path, i: nat): set<Path>
  {
    set x | x in Maps(s) && Gone(x, p, i)
  }

  ghost function Whole(s: Sys, p: Path): set<Path>
  {
    set x | x in Maps(s) && Under(x, p)
  }

  lemma PartNext(s: Sys, p: Path, i: nat)
    requires Inv(s, None)
    ensures Sub(p, i) in Maps(s) && Sub(p, i) !in s.tree && IsPrivate(p) ==>
      Part(s, p, i + 1) == Part(s, p, i) + {Sub(p, i)}
    ensures Sub(p, i) !in Maps(s) ==> Part(s, p, i + 1) == Part(s, p, i) + Whole(s, Sub(p, i))
    ensures Sub(p, i) !in s.tree && Sub(p, i) !in s.leaf && IsPrivate(p) ==> Part(s, p, i + 1) == Part(s, p, i)
  {
    forall x ensures Gone(x, p, i + 1) <==> Gone(x, p, i) || x == Sub(p, i) || Under(x, Sub(p, i)) {
      GoneNext(x, p, i);
    }
    if Sub(p, i) !in s.tree && IsPrivate(p) {
      forall x | Under(x, Sub(p, i)) ensures x !in Maps(s) { NothingUnder(s, Sub(p, i), x); }
    }
  }

  lemma WholeSame(s: Sys, s': Sys, src: nat, d: nat, p: Path)
    requires Grew(s, s', src, d) && SpaceOf(p) == Private(src) && src != d
    ensures Whole(s', p) == Whole(s, p)
  {
    forall x | Under(x, p) ensures x in Maps(s') <==> x in Maps(s) { UnderSpace(x, p); }
  }

  /** A leaf as fork leaves it in both spaces: never writable, copy-on-write if it was. */
  function Cow(e: Pte): Pte
  {
    e.(write := false, cow := e.cow || e.write)
  }

  /** All mappings of space d are copies of mappings of space src. */
  ghost predicate CopyOnly(s: Sys, src: nat, d: nat)
  {
    forall m :: m in Maps(s) && SpaceOf(m) == Private(d) ==>
      Move(m, src) in Maps(s) && Maps(s)[Move(m, src)].frame == Maps(s)[m].frame
  }

  /** Taking a reference and stripping WRITE changes nothing a process can see. */
  lemma ShareStart(s: Sys, l: Path)
    requires Inv(s, None) && l in s.leaf && IsPrivate(l)
    ensures var e := s.leaf[l]; var f := e.frame;
      && f in s.users && f < |s.rc| && f !in s.free && 0 < s.rc[f] == |s.users[f]|
      && var s1 := s.(rc := s.rc[f := s.rc[f] + 1]);
      && Inv(s1, Some(f)) && CanSet(s1, l, Cow(e), Some(f))
      && Maps(s1) == Maps(s) && Kept(s, s1)
  {
    var f := s.leaf[l].frame;
    assert LeafOk(s.tree, s.leaf, s.users, l);
    assert UserOk(s, f, None);
    assert FrameOk(s, f);
    HoldRefInv(s, f);
    HoldRefView(s, f);
    var s1 := s.(rc := s.rc[f := s.rc[f] + 1]);
    assert NodeOk(s1.mem, s1.tree, s1.owner, l.up) && EntryOk(s1.mem, s1.tree, s1.leaf, l.up, l.idx);
    assert OpenOk(s1.mem, s1.tree, s1.leaf, l);
    forall m | m in s.users[f] && m != l ensures m in s.leaf && !s.leaf[m].write && SpaceOf(m) != SpaceOf(l) {
      assert LeafOk(s.tree, s.leaf, s.users, m);
    }
  }

  lemma ShareStrip(s: Sys, s1: Sys, l: Path)
    requires l in s1.leaf && Inv(s1, Some(s1.leaf[l].frame)) && CanSet(s1, l, Cow(s1.leaf[l]), Some(s1.leaf[l].frame))
    requires Maps(s1) == Maps(s) && Kept(s, s1)
    ensures var e := s1.leaf[l]; var s2 := SetLeaf(s1, l, Cow(e));
      && Inv(s2, Some(e.frame)) && Maps(s2) == Maps(s) && Kept(s, s2)
      && s2.tree == s1.tree && s2.users == s1.users && s2.leaf == s1.leaf[l := Cow(e)]
      && s2.free == s1.free && s2.rc == s1.rc
  {
    hide Kept;
    var e := s1.leaf[l];
    SetLeafInv(s1, l, Cow(e), Some(e.frame));
    SetLeafView(s1, l, Cow(e), Some(e.frame));
    SetLeafKept(s1, l, Cow(e), Some(e.frame));
    assert LeafOk(s1.tree, s1.leaf, s1.users, l);
    hide Inv, SetLeaf;
    KeptTrans(s, s1, SetLeaf(s1, l, Cow(e)));
    CowSame(s1, l);
  }

  lemma CowSame(s: Sys, l: Path)
    requires l in s.leaf && CanSet(s, l, Cow(s.leaf[l]), Some(s.leaf[l].frame))
    requires LeafOk(s.tree, s.leaf, s.users, l) && IsPrivate(l)
    ensures var s' := SetLeaf(s, l, Cow(s.leaf[l]));
      && s'.tree == s.tree && s'.users == s.users && s'.leaf == s.leaf[l := Cow(s.leaf[l])]
      && s'.free == s.free && s'.rc == s.rc
  {
    hide Inv;
    var f := s.leaf[l].frame;
    assert s.users[f] - {l} + {l} == s.users[f];
    assert SetLeaf(s, l, Cow(s.leaf[l])).users == s.users;
  }

  /** One more reference to the page of leaf l, the leaf copy-on-write. */
  ghost function RefLeaf(s: Sys, l: Path): Sys
    requires Inv(s, None) && l in s.leaf && IsPrivate(l)
  {
    ShareStart(s, l);
    var e := s.leaf[l];
    var s1 := s.(rc := s.rc[e.frame := s.rc[e.frame] + 1]);
    if e.write then SetLeaf(s1, l, Cow(e)) else s1
  }

  lemma ShareReady(s: Sys, l: Path)
    requires Inv(s, None) && l in s.leaf && IsPrivate(l)
    ensures var e := s.leaf[l]; var s2 := RefLeaf(s, l);
      && Inv(s2, Some(e.frame)) && Maps(s2) == Maps(s) && Kept(s, s2)
      && s2.tree == s.tree && s2.users == s.users && s2.leaf == s.leaf[l := Cow(e)] && s2.free == s.free
      && e.frame < |s.rc| && s2.rc == s.rc[e.frame := s.rc[e.frame] + 1]
  {
    ShareStart(s, l);
    var e := s.leaf[l];
    var s1 := s.(rc := s.rc[e.frame := s.rc[e.frame] + 1]);
    if e.write { ShareStrip(s, s1, l); }
  }

  /** Before leaf l is copied, no leaf of d maps its frame. */
  lemma NoCopyYet(s: Sys, l: Path, src: nat, d: nat, held: Option<nat>, m: Path)
    requires Inv(s, held) && l in s.leaf && SpaceOf(l) == Private(src) && src != d
    requires CopyOnly(s, src, d) && Move(l, d) !in s.leaf
    requires m in s.leaf && IsPrivate(m) && s.leaf[m].frame == s.leaf[l].frame
    ensures SpaceOf(m) != Private(d)
  {
    var f := s.leaf[l].frame;
    assert LeafOk(s.tree, s.leaf, s.users, l);
    assert UserOk(s, f, held);
    if SpaceOf(m) == Private(d) {
      assert m in Maps(s) && Maps(s)[m].frame == f;
      var x := Move(m, src);
      assert LeafOk(s.tree, s.leaf, s.users, x);
      assert x in s.users[f] && x == l;
      MoveBack(m, d, src);
    }
  }

  /** No leaf of the frame about to be shared is writable or belongs to d. */
  lemma ShareSafe(s: Sys, l: Path, src: nat, d: nat, held: Option<nat>)
    requires Inv(s, held) && l in s.leaf && SpaceOf(l) == Private(src) && src != d && !s.leaf[l].write
    requires CopyOnly(s, src, d) && Move(l, d) !in s.leaf
    ensures var f := s.leaf[l].frame;
      f in s.users && forall m :: m in s.users[f] ==> m in s.leaf && !s.leaf[m].write && SpaceOf(m) != Private(d)
  {
    var f := s.leaf[l].frame;
    assert LeafOk(s.tree, s.leaf, s.users, l);
    assert UserOk(s, f, held);
    forall m | m in s.users[f] ensures m in s.leaf && !s.leaf[m].write && SpaceOf(m) != Private(d) {
      assert LeafOk(s.tree, s.leaf, s.users, m);
      NoCopyYet(s, l, src, d, held, m);
    }
  }

  /** The tables added on the way to the copy of l are needed. */
  lemma ShareGrewTree(s: Sys, s': Sys, l: Path, src: nat, d: nat)
    requires Inv(s, None) && l in s.leaf && SpaceOf(l) == Private(src) && src != d
    requires NodesOk(s'.mem, s'.tree, s'.owner)
    requires forall p :: p in s.tree ==> p in s'.tree && s'.tree[p] == s.tree[p]
    requires forall p :: p in s'.tree && p !in s.tree ==> Below(Move(l, d), p)
    ensures GrewTree(s, s', src, d)
  {
    assert LeafOk(s.tree, s.leaf, s.users, l);
    forall q | q in s'.tree && q !in s.tree ensures SpaceOf(q) == Private(d) && Move(q, src) in Needed(s, src) {
      BelowSpace(Move(l, d), q);
      MoveBelow(Move(l, d), q, src);
      MoveBack(l, src, d);
      assert NodeOk(s'.mem, s'.tree, s'.owner, q);
      AncestorsIn(s, l, Move(q, src));
      assert l in Maps(s);
    }
  }

  lemma GrewKeep(s: Sys, s3: Sys, s': Sys, src: nat, d: nat)
    requires Grew(s, s3, src, d) && s'.tree == s3.tree && s'.free == s3.free
    requires Maps(s') == Maps(s3) && Kept(s3, s')
    ensures Grew(s, s', src, d)
  {
    KeptTrans(s, s3, s');
  }

  lemma ShareCopied(s: Sys, s3: Sys, l: Path, src: nat, d: nat)
    requires l in Maps(s) && SpaceOf(l) == Private(src) && src != d && CopyOnly(s, src, d)
    requires Move(l, d) !in Maps(s) && Maps(s3) == Maps(s)[Move(l, d) := Maps(s)[l]]
    ensures Copied(s, s3, src, d, {l}) && CopyOnly(s3, src, d) && SameElsewhere(Maps(s), Maps(s3), d)
  {
    MoveBack(l, src, d);
    forall m | SpaceOf(m) == Private(d) ensures Move(m, src) == l <==> m == Move(l, d) { MoveBack(m, d, src); }
  }

  /** Spaces that share a frame are distinct, so their number bounds the count. */
  lemma {:induction false} DistinctSpaces(ls: set<Path>, spaces: set<nat>)
    requires forall l :: l in ls ==> SpaceOf(l).Private? && SpaceOf(l).root in spaces
    requires forall l, m :: l in ls && m in ls && SpaceOf(l) == SpaceOf(m) ==> l == m
    ensures |ls| <= |spaces|
    decreases |ls|
  {
    if ls != {} {
      var l :| l in ls;
      DistinctSpaces(ls - {l}, spaces - {SpaceOf(l).root});
    }
  }

  /** The copy of what is not yet copied is not there yet. */
  lemma NotYetCopied(s: Sys, s': Sys, src: nat, d: nat, p: Path, i: nat, x: Path)
    requires SpaceOf(p) == Private(src) && Copied(s, s', src, d, Part(s, p, i))
    requires x == Sub(p, i) || Under(x, Sub(p, i))
    requires Move(x, d) !in Maps(s)
    ensures Move(x, d) !in Maps(s')
  {
    assert SpaceOf(Sub(p, i)) == Private(src);
    if x != Sub(p, i) { UnderSpace(x, Sub(p, i)); }
    NotYetGone(x, p, i);
    MoveBack(x, src, d);
  }

  lemma {:induction false} BelowRoot(p: Path)
    ensures Below(p, Root(SpaceOf(p)))
  {
    if p.Sub? { BelowRoot(p.up); }
  }

  /** Fewer than 65535 spaces besides d share the frame of l: its count cannot overflow. */
  lemma SharersBound(s: Sys, spaces: set<nat>, l: Path, src: nat, d: nat)
    requires Inv(s, None) && l in s.leaf && SpaceOf(l) == Private(src) && src != d && d in spaces
    requires CopyOnly(s, src, d) && Move(l, d) !in s.leaf
    requires forall r :: Root(Private(r)) in s.tree ==> r in spaces
    ensures s.leaf[l].frame in s.users && |s.users[s.leaf[l].frame]| < |spaces|
  {
    var f := s.leaf[l].frame;
    assert LeafOk(s.tree, s.leaf, s.users, l);
    assert UserOk(s, f, None);
    forall m | m in s.users[f] ensures SpaceOf(m).root in spaces - {d} {
      NoCopyYet(s, l, src, d, None, m);
      BelowRoot(m);
      assert LeafOk(s.tree, s.leaf, s.users, m);
      AncestorsIn(s, m, Root(SpaceOf(m)));
    }
    DistinctSpaces(s.users[f], spaces - {d});
  }

  /** The tables of space d. */
  ghost function TablesOf(s: Sys, d: nat): set<Path>
  {
    set q | q in s.tree && SpaceOf(q) == Private(d)
  }

  /** Moving tables to another space loses none. */
  lemma {:induction false} MoveSize(a: set<Path>, b: set<Path>, d: nat, src: nat)
    requires forall q :: q in a ==> SpaceOf(q) == Private(d) && Move(q, src) in b
    ensures |a| <= |b|
    decreases |a|
  {
    if a != {} {
      var q :| q in a;
      forall p | p in a && p != q ensures Move(p, src) in b - {Move(q, src)} {
        MoveBack(p, d, src);
        MoveBack(q, d, src);
      }
      MoveSize(a - {q}, b - {Move(q, src)}, d, src);
    }
  }

  /** Growing only space d, the tables of d account for the frames taken. */
  lemma FramesTaken(s0: Sys, s: Sys, d: nat)
    requires forall q :: q in s0.tree ==> q in s.tree && SpaceOf(q) != Private(d)
    requires forall q :: q in s.tree && q !in s0.tree ==> SpaceOf(q) == Private(d)
    requires Balance(s) == Balance(s0)
    ensures |s.free| + |TablesOf(s, d)| == |s0.free|
  {
    assert s.tree.Keys == s0.tree.Keys + TablesOf(s, d);
    assert |s.tree.Keys| == |s0.tree.Keys| + |TablesOf(s, d)|;
    assert |s.tree| == |s.tree.Keys| && |s0.tree| == |s0.tree.Keys|;
  }
}
