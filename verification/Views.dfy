/** What user programs can observe of the tables, and what the kernel keeps
    to itself, across the elementary steps of Tables. */
module Views {
  import opened Wrappers
  import opened Paging
  import opened Pmm
  import opened Tables

  /** A user page as a process sees it: contents and effective permissions. A
      copy-on-write page counts as writable. */
  datatype PageView = PageView(bytes: Page, writable: bool, nx: bool)

  /** A user page together with the frame behind it. */
  datatype Mapped = Mapped(frame: nat, page: PageView)

  function BytesOf(mem: map<nat, Content>, f: nat): Page
  {
    if f in mem && mem[f].Data? then mem[f].bytes else ZeroPage()
  }

  function PageOf(mem: map<nat, Content>, e: Pte): Mapped
  {
    Mapped(e.frame, PageView(BytesOf(mem, e.frame), e.write || e.cow, e.nx))
  }

  /** All user mappings of all spaces, by position. */
  ghost function Maps(s: Sys): map<Path, Mapped>
  {
    map l | l in s.leaf && IsPrivate(l) :: PageOf(s.mem, s.leaf[l])
  }

  /** What the processes see: the pages without the frames behind them. */
  ghost function Pages(s: Sys): map<Path, PageView>
  {
    map l | l in Maps(s) :: Maps(s)[l].page
  }

  /** Frames outside the user spaces keep their use and their count, and the
      shared tables keep their contents. */
  ghost predicate KeptFrame(s: Sys, s': Sys, f: nat)
  {
    && (f in s.owner && s.owner[f].Other? <==> f in s'.owner && s'.owner[f].Other?)
    && (f in s.owner && f < |s.rc| && (s.owner[f].Other? || (s.owner[f].TableAt? && !IsPrivate(s.owner[f].path))) ==>
          f in s'.owner && s'.owner[f] == s.owner[f] && f < |s'.rc| && s'.rc[f] == s.rc[f] &&
          (f in s.mem <==> f in s'.mem) && (f in s.mem ==> s'.mem[f] == s.mem[f]))
  }

  ghost predicate Kept(s: Sys, s': Sys)
  {
    && |s'.rc| == |s.rc|
    && (forall p :: !IsPrivate(p) ==> (p in s.tree <==> p in s'.tree) && (p in s.leaf <==> p in s'.leaf))
    && (forall p :: !IsPrivate(p) && p in s.tree ==> s'.tree[p] == s.tree[p])
    && (forall p :: !IsPrivate(p) && p in s.leaf ==> s'.leaf[p] == s.leaf[p])
    && (forall f {:trigger KeptFrame(s, s', f)} :: KeptFrame(s, s', f))
  }

  lemma KeptSame(s: Sys)
    ensures Kept(s, s)
  {}

  lemma KeptTrans(a: Sys, b: Sys, c: Sys)
    requires Kept(a, b) && Kept(b, c)
    ensures Kept(a, c)
  {
    forall f ensures KeptFrame(a, c, f) {
      assert KeptFrame(a, b, f);
      assert KeptFrame(b, c, f);
    }
  }

  lemma LinkView(s: Sys, p: Path, i: nat, f: nat, held: Option<nat>)
    requires CanLink(s, p, i, f, held)
    ensures Maps(LinkTable(s, p, i, f)) == Maps(s)
    ensures IsPrivate(p) ==> Kept(s, LinkTable(s, p, i, f))
  {
    var s' := LinkTable(s, p, i, f);
    forall l | l in s.leaf && IsPrivate(l) ensures PageOf(s'.mem, s.leaf[l]) == PageOf(s.mem, s.leaf[l]) {
      assert LeafOk(s.tree, s.leaf, s.users, l);
      assert UserOk(s, s.leaf[l].frame, held);
    }
    if IsPrivate(p) {
      forall g ensures KeptFrame(s, s', g) { assert FrameOk(s, g); }
    }
  }

  lemma OpenLinkView(s: Sys, p: Path, i: nat, held: Option<nat>)
    requires CanOpen(s, p, i, held)
    ensures Maps(OpenLink(s, p, i)) == Maps(s) && Kept(s, OpenLink(s, p, i))
    ensures forall f :: f in s.users && f in s.mem ==> OpenLink(s, p, i).mem[f] == s.mem[f]
  {
    var s' := OpenLink(s, p, i);
    forall f | f in s.users ensures f != s.tree[p] { assert UserOk(s, f, held); }
    forall l | l in s.leaf && IsPrivate(l) ensures PageOf(s'.mem, s.leaf[l]) == PageOf(s.mem, s.leaf[l]) {
      assert LeafOk(s.tree, s.leaf, s.users, l);
    }
    forall g ensures KeptFrame(s, s', g) {}
  }

  lemma SetLeafPage(s: Sys, l: Path, e: Pte, held: Option<nat>, m: Path)
    requires CanSet(s, l, e, held)
    ensures var s' := SetLeaf(s, l, e);
      m in s'.leaf && IsPrivate(m) ==> PageOf(s'.mem, s'.leaf[m]) == PageOf(s.mem, s'.leaf[m])
  {
    assert LeafOk(s.tree, s.leaf, s.users, m);
    var s' := SetLeaf(s, l, e);
    if m in s'.leaf && IsPrivate(m) {
      assert UserOk(s, s'.leaf[m].frame, HeldBefore(s, l, e, held));
    }
  }

  lemma SetLeafView(s: Sys, l: Path, e: Pte, held: Option<nat>)
    requires CanSet(s, l, e, held)
    ensures Maps(SetLeaf(s, l, e)) == if e.present then Maps(s)[l := PageOf(s.mem, e)] else Maps(s) - {l}
  {
    var s' := SetLeaf(s, l, e);
    forall m | m in s'.leaf && IsPrivate(m) ensures PageOf(s'.mem, s'.leaf[m]) == PageOf(s.mem, s'.leaf[m]) {
      SetLeafPage(s, l, e, held, m);
    }
  }

  lemma SetLeafKept(s: Sys, l: Path, e: Pte, held: Option<nat>)
    requires CanSet(s, l, e, held)
    ensures Kept(s, SetLeaf(s, l, e))
  {
    var s' := SetLeaf(s, l, e);
    forall g ensures KeptFrame(s, s', g) {}
  }

  lemma PutSharedView(s: Sys, l: Path, e: Pte, held: Option<nat>)
    requires Inv(s, held) && CanPut(s, l, e) && !IsPrivate(l)
    ensures Maps(PutLeaf(s, l, e)) == Maps(s)
  {
    var s' := PutLeaf(s, l, e);
    forall m | m in s'.leaf && IsPrivate(m) ensures PageOf(s'.mem, s'.leaf[m]) == PageOf(s.mem, s'.leaf[m]) {
      assert LeafOk(s.tree, s.leaf, s.users, m);
      assert UserOk(s, s'.leaf[m].frame, held);
    }
  }

  lemma RemoveView(s: Sys, c: Path, held: Option<nat>)
    requires CanRemove(s, c, held)
    ensures Maps(RemoveTable(s, c)) == Maps(s)
    ensures Kept(s, RemoveTable(s, c))
  {
    var s' := RemoveTable(s, c);
    forall l | l in s.leaf && IsPrivate(l) ensures PageOf(s'.mem, s.leaf[l]) == PageOf(s.mem, s.leaf[l]) {
      assert LeafOk(s.tree, s.leaf, s.users, l);
      assert UserOk(s, s.leaf[l].frame, held);
    }
    forall g ensures KeptFrame(s, s', g) {}
  }

  lemma HoldNewView(s: Sys, f: nat, bytes: Page)
    requires Inv(s, None) && f in s.free && f < |s.rc|
    ensures Maps(HoldNew(s, f, bytes)) == Maps(s)
    ensures Kept(s, HoldNew(s, f, bytes))
  {
    var s' := HoldNew(s, f, bytes);
    assert FrameOk(s, f);
    forall l | l in s.leaf && IsPrivate(l) ensures s.leaf[l].frame != f {
      assert LeafOk(s.tree, s.leaf, s.users, l);
      assert UserOk(s, f, None);
    }
    forall g ensures KeptFrame(s, s', g) {}
  }

  lemma HoldRefView(s: Sys, f: nat)
    requires Inv(s, None) && f in s.users && f < |s.rc|
    ensures Maps(s.(rc := s.rc[f := s.rc[f] + 1])) == Maps(s)
    ensures Kept(s, s.(rc := s.rc[f := s.rc[f] + 1]))
  {
    assert UserOk(s, f, None);
    var s' := s.(rc := s.rc[f := s.rc[f] + 1]);
    forall g ensures KeptFrame(s, s', g) {}
  }

  lemma DropHeldView(s: Sys, f: nat)
    requires Inv(s, Some(f)) && f < |s.rc| && s.rc[f] > 0
    ensures Maps(DropHeld(s, f)) == Maps(s)
    ensures Kept(s, DropHeld(s, f))
  {
    assert UserOk(s, f, Some(f));
    var s' := DropHeld(s, f);
    forall g ensures KeptFrame(s, s', g) {}
  }

  lemma WriteDataView(s: Sys, l: Path, bytes: Page)
    requires Inv(s, None) && l in s.leaf && IsPrivate(l) && s.leaf[l].write
    ensures s.leaf[l].frame in s.users
    ensures var s' := s.(mem := s.mem[s.leaf[l].frame := Data(bytes)]);
      Kept(s, s') && Maps(s') == Maps(s)[l := PageOf(s'.mem, s.leaf[l])]
  {
    var f := s.leaf[l].frame;
    var s' := s.(mem := s.mem[f := Data(bytes)]);
    assert LeafOk(s.tree, s.leaf, s.users, l);
    assert UserOk(s, f, None);
    forall m | m in s.leaf && IsPrivate(m) && m != l ensures s.leaf[m].frame != f {
      assert LeafOk(s.tree, s.leaf, s.users, m);
    }
    assert Maps(s') == Maps(s)[l := PageOf(s'.mem, s.leaf[l])];
    forall g ensures KeptFrame(s, s', g) {}
  }

  lemma NewSpaceView(s: Sys, cur: nat, r: nat, low: nat, rt: seq<Pte>, lt: seq<Pte>)
    requires CanCreate(s, cur, r, low, rt, lt)
    ensures Maps(NewSpace(s, r, low, rt, lt)) == Maps(s)
    ensures Kept(s, NewSpace(s, r, low, rt, lt))
  {
    var s' := NewSpace(s, r, low, rt, lt);
    forall l | l in s.leaf && IsPrivate(l) ensures PageOf(s'.mem, s.leaf[l]) == PageOf(s.mem, s.leaf[l]) {
      assert LeafOk(s.tree, s.leaf, s.users, l);
      assert UserOk(s, s.leaf[l].frame, None);
    }
    assert IsPrivate(Root(Private(r))) && IsPrivate(Sub(Root(Private(r)), 0));
    forall g ensures KeptFrame(s, s', g) { assert FrameOk(s, g); }
  }

  /** Reference accounting is exact: where no operation is running, a user page
      frame is counted once for every leaf that maps it. */
  lemma CountIsLeaves(s: Sys, f: nat)
    requires Inv(s, None) && f in s.users
    ensures f < |s.rc| && s.rc[f] == |s.users[f]| > 0
    ensures forall l :: l in s.users[f] <==> l in Maps(s) && Maps(s)[l].frame == f
  {
    assert UserOk(s, f, None);
    forall l | l in Maps(s) && Maps(s)[l].frame == f ensures l in s.users[f] {
      assert LeafOk(s.tree, s.leaf, s.users, l);
    }
  }

  lemma MappedIsUsed(s: Sys, l: Path)
    requires Inv(s, None) && l in Maps(s)
    ensures Maps(s)[l].frame in s.users
  {
    assert LeafOk(s.tree, s.leaf, s.users, l);
  }

  /** The same mappings use the same frames the same number of times. */
  lemma UsersDetermined(s: Sys, s': Sys, f: nat)
    requires Inv(s, None) && Inv(s', None)
    requires Maps(s).Keys == Maps(s').Keys
    requires forall l :: l in Maps(s) ==> Maps(s)[l].frame == Maps(s')[l].frame
    ensures f in s.users ==> f in s'.users && s.users[f] == s'.users[f]
  {
    if f in s.users {
      CountIsLeaves(s, f);
      var l :| l in s.users[f];
      MappedIsUsed(s', l);
      CountIsLeaves(s', f);
    }
  }

  /** The tables and the mappings determine the allocator: which frames are
      free and how often each is counted. */
  lemma FrameDetermined(s: Sys, s': Sys, f: nat)
    requires Inv(s, None) && Inv(s', None) && Kept(s, s')
    requires s.tree == s'.tree && Maps(s).Keys == Maps(s').Keys
    requires forall l :: l in Maps(s) ==> Maps(s)[l].frame == Maps(s')[l].frame
    ensures f in s.owner ==> f in s'.owner && s'.owner[f] == s.owner[f]
    ensures f in s.owner ==> f < |s.rc| && f < |s'.rc| && s'.rc[f] == s.rc[f]
  {
    assert FrameOk(s, f) && FrameOk(s', f) && KeptFrame(s, s', f);
    if f in s.owner {
      if s.owner[f].TableAt? {
        var p := s.owner[f].path;
        assert NodeOk(s.mem, s.tree, s.owner, p) && NodeOk(s'.mem, s'.tree, s'.owner, p);
      } else if s.owner[f].UserPage? {
        UsersDetermined(s, s', f);
        assert UserOk(s, f, None) && UserOk(s', f, None);
      }
    }
  }

  lemma KeptBack(s: Sys, s': Sys)
    requires Kept(s, s') && Inv(s, None) && Inv(s', None)
    requires s.tree == s'.tree
    ensures Kept(s', s)
  {
    forall f ensures KeptFrame(s', s, f) {
      assert KeptFrame(s, s', f);
      assert FrameOk(s, f) && FrameOk(s', f);
      if f in s'.owner && s'.owner[f].TableAt? {
        assert NodeOk(s.mem, s.tree, s.owner, s'.owner[f].path);
      }
    }
  }

  /** Exact accounting: equal tables and mappings leave the allocator in the same state. */
  lemma AllocatorDetermined(s: Sys, s': Sys)
    requires Inv(s, None) && Inv(s', None) && Kept(s, s')
    requires s.tree == s'.tree && Maps(s).Keys == Maps(s').Keys
    requires forall l :: l in Maps(s) ==> Maps(s)[l].frame == Maps(s')[l].frame
    ensures s'.free == s.free && s'.rc == s.rc && s'.owner == s.owner
  {
    KeptBack(s, s');
    forall f: nat
      ensures f in s.owner <==> f in s'.owner
      ensures f in s.owner ==> s'.owner[f] == s.owner[f]
      ensures f in s.free <==> f in s'.free
      ensures f < |s.rc| ==> f < |s'.rc| && s'.rc[f] == s.rc[f]
    {
      FrameDetermined(s, s', f);
      FrameDetermined(s', s, f);
      assert FrameOk(s, f) && FrameOk(s', f);
    }
  }
}
