/** Taking an address space apart: which positions are gone while the loops of
    the destroyer run. */
module Prune {
  import opened Wrappers
  import opened Paging
  import opened Pmm
  import opened Tables
  import opened Views

  /** q lies strictly under c. */
  predicate Under(q: Path, c: Path)
  {
    q.Sub? && (q.up == c || Under(q.up, c))
  }

  /** q lies under one of the first i entries of the table at p. */
  predicate Gone(q: Path, p: Path, i: nat)
  {
    q.Sub? && ((q.up == p && q.idx < i) || Gone(q.up, p, i))
  }

  lemma {:induction false} GoneNext(q: Path, p: Path, i: nat)
    ensures Gone(q, p, i + 1) <==> Gone(q, p, i) || q == Sub(p, i) || Under(q, Sub(p, i))
  {
    if q.Sub? { GoneNext(q.up, p, i); }
  }

  lemma {:induction false} GoneIsUnder(q: Path, p: Path, i: nat)
    requires Gone(q, p, i)
    ensures Under(q, p)
  {
    if !(q.up == p && q.idx < i) { GoneIsUnder(q.up, p, i); }
  }

  lemma {:induction false} GoneZero(q: Path, p: Path)
    ensures !Gone(q, p, 0)
  {
    if q.Sub? { GoneZero(q.up, p); }
  }

  lemma {:induction false} UnderSpace(q: Path, c: Path)
    requires Under(q, c)
    ensures SpaceOf(q) == SpaceOf(c) && Depth(q) > Depth(c)
  {
    if q.up != c { UnderSpace(q.up, c); }
  }

  lemma NotUnderSelf(q: Path, c: Path)
    requires Depth(q) <= Depth(c)
    ensures !Under(q, c)
  {
    if Under(q, c) { UnderSpace(q, c); }
  }

  /** Entry i and what lies under it are not among the first i entries. */
  lemma {:induction false} NotYetGone(x: Path, p: Path, i: nat)
    requires x == Sub(p, i) || Under(x, Sub(p, i))
    ensures !Gone(x, p, i)
  {
    if Gone(p, p, i) {
      GoneIsUnder(p, p, i);
      NotUnderSelf(p, p);
    }
    if x != Sub(p, i) {
      NotUnderSelf(p, Sub(p, i));
      NotYetGone(x.up, p, i);
    }
  }

  /** The positions under c have been emptied and nothing else has changed. */
  ghost predicate Emptied(s: Sys, s': Sys, c: Path)
  {
    && (forall q :: q in s'.tree <==> q in s.tree && !Under(q, c))
    && (forall q :: q in s'.tree ==> s'.tree[q] == s.tree[q])
    && (forall l :: l in Maps(s') <==> l in Maps(s) && !Under(l, c))
    && (forall l :: l in Maps(s') ==> Maps(s')[l] == Maps(s)[l])
    && Kept(s, s')
  }

  /** The first i entries of the table at p have been emptied. */
  ghost predicate Pruned(s: Sys, s': Sys, p: Path, i: nat)
  {
    && (forall q :: q in s'.tree <==> q in s.tree && !Gone(q, p, i))
    && (forall q :: q in s'.tree ==> s'.tree[q] == s.tree[q])
    && (forall l :: l in Maps(s') <==> l in Maps(s) && !Gone(l, p, i))
    && (forall l :: l in Maps(s') ==> Maps(s')[l] == Maps(s)[l])
    && Kept(s, s')
  }

  /** Nothing hangs under a position that holds no table. */
  lemma {:induction false} NothingUnder(s: Sys, c: Path, q: Path)
    requires Inv(s, None) && c !in s.tree && IsPrivate(c) && Under(q, c)
    ensures q !in s.tree && q !in s.leaf
  {
    UnderSpace(q, c);
    assert NodeOk(s.mem, s.tree, s.owner, q) && LeafOk(s.tree, s.leaf, s.users, q);
    if q.up != c {
      NothingUnder(s, c, q.up);
    }
  }

  lemma PrunedStart(s: Sys, p: Path)
    ensures Pruned(s, s, p, 0)
  {
    forall q ensures !Gone(q, p, 0) { GoneZero(q, p); }
    forall f ensures KeptFrame(s, s, f) {}
  }

  /** Entry i leads to no table; after the step it leads to no leaf either. */
  lemma PrunedEntry(s0: Sys, s: Sys, s': Sys, p: Path, i: nat)
    requires Inv(s, None) && IsPrivate(p) && Pruned(s0, s, p, i) && Sub(p, i) !in s.tree
    requires s'.tree == s.tree && Maps(s') == Maps(s) - {Sub(p, i)} && Kept(s, s')
    ensures Pruned(s0, s', p, i + 1)
  {
    KeptTrans(s0, s, s');
    forall q ensures Gone(q, p, i + 1) <==> Gone(q, p, i) || q == Sub(p, i) || Under(q, Sub(p, i))
             ensures Under(q, Sub(p, i)) ==> q !in s.tree && q !in Maps(s) {
      GoneNext(q, p, i);
      if Under(q, Sub(p, i)) { NothingUnder(s, Sub(p, i), q); }
    }
  }

  /** Entry i led to a table that has been emptied and unlinked. */
  lemma PrunedTable(s0: Sys, s: Sys, s1: Sys, s': Sys, p: Path, i: nat)
    requires Pruned(s0, s, p, i) && Emptied(s, s1, Sub(p, i)) && Sub(p, i) !in Maps(s)
    requires s'.tree == s1.tree - {Sub(p, i)} && Maps(s') == Maps(s1) && Kept(s1, s')
    ensures Pruned(s0, s', p, i + 1)
  {
    hide Kept, Maps, Gone;
    KeptTrans(s0, s, s1);
    KeptTrans(s0, s1, s');
    forall q ensures Gone(q, p, i + 1) <==> Gone(q, p, i) || q == Sub(p, i) || Under(q, Sub(p, i)) {
      GoneNext(q, p, i);
    }
  }

  lemma {:induction false} UnderIsGone(s: Sys, p: Path, n: nat, q: Path)
    requires Inv(s, None) && IsPrivate(p) && Under(q, p) && (q in s.tree || q in s.leaf)
    requires forall i: nat :: Sub(p, i) in s.tree || Sub(p, i) in s.leaf ==> i < n
    ensures Gone(q, p, n)
  {
    UnderSpace(q, p);
    assert NodeOk(s.mem, s.tree, s.owner, q) && LeafOk(s.tree, s.leaf, s.users, q);
    if q.up != p { UnderIsGone(s, p, n, q.up); }
  }

  lemma PrunedEnd(s0: Sys, s: Sys, p: Path, n: nat)
    requires Inv(s0, None) && IsPrivate(p) && Pruned(s0, s, p, n)
    requires forall i: nat :: Sub(p, i) in s0.tree || Sub(p, i) in s0.leaf ==> i < n
    ensures Emptied(s0, s, p)
  {
    forall q | q in s0.tree || q in s0.leaf ensures Gone(q, p, n) <==> Under(q, p) {
      if Under(q, p) { UnderIsGone(s0, p, n, q); }
      if Gone(q, p, n) { GoneIsUnder(q, p, n); }
    }
  }
}
