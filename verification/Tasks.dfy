/** Tasks as the kernel keeps them: structs linked into a circular run queue, a
    list of all tasks and a list of zombies. Links are followed and cut as the
    kernel does it; the sequences ring, all and dead are what the links spell. */
module Tasks {
  import opened Wrappers
  import opened Lists

  datatype State = READY | RUNNING | BLOCKED | DEAD

  /** A task struct; tasks are named by their pid. */
  datatype Task = Task(
    state: State, parent: Option<nat>, exitCode: int,
    next: nat, allNext: Option<nat>, zombieNext: Option<nat>)

  type Heap = map<nat, Task>

  predicate Runnable(t: Task)
  {
    t.state == READY || t.state == RUNNING
  }

  /** The element after position i, going round. */
  function After(s: seq<nat>, i: int): nat
    requires 0 <= i < |s|
  {
    if i + 1 == |s| then s[0] else s[i + 1]
  }

  /** The next links run once through s and back to its start. */
  ghost predicate IsRing(h: Heap, s: seq<nat>)
  {
    && |s| > 0 && Distinct(s)
    && (forall i :: 0 <= i < |s| ==> s[i] in h)
    && (forall i {:trigger After(s, i)} :: 0 <= i < |s| ==> h[s[i]].next == After(s, i))
  }

  function Rotate(s: seq<nat>, d: nat): seq<nat>
    requires d <= |s|
  {
    s[d..] + s[..d]
  }

  /** A ring may be read from any of its members. */
  lemma RotateRing(h: Heap, s: seq<nat>, d: nat)
    requires IsRing(h, s) && d < |s|
    ensures IsRing(h, Rotate(s, d)) && Rotate(s, d)[0] == s[d]
    ensures forall t :: t in Rotate(s, d) <==> t in s
  {
    var r := Rotate(s, d);
    assert forall t :: t in r <==> t in s[d..] || t in s[..d];
    assert forall t :: t in s <==> t in s[d..] || t in s[..d] by { assert s == s[..d] + s[d..]; }
    forall i | 0 <= i < |r| ensures h[r[i]].next == After(r, i) {
      var j := if i < |s| - d then i + d else i + d - |s|;
      assert r[i] == s[j];
      assert h[s[j]].next == After(s, j);
    }
  }

  /** The link of a list cell: all-tasks list or zombie list. */
  datatype Which = ALL | ZOMBIE

  function Link(t: Task, w: Which): Option<nat>
  {
    if w == ALL then t.allNext else t.zombieNext
  }

  function SetLink(t: Task, w: Which, l: Option<nat>): Task
  {
    if w == ALL then t.(allNext := l) else t.(zombieNext := l)
  }

  /** Following the links from head spells s. */
  ghost predicate IsList(h: Heap, w: Which, head: Option<nat>, s: seq<nat>)
  {
    && Distinct(s)
    && (forall i :: 0 <= i < |s| ==> s[i] in h)
    && head == At(s, 0)
    && (forall i {:trigger NextIn(s, i)} :: 0 <= i < |s| ==> Link(h[s[i]], w) == NextIn(s, i))
  }

  /** A list does not notice changes outside its own links. */
  lemma ListFrame(h: Heap, h': Heap, w: Which, head: Option<nat>, s: seq<nat>)
    requires IsList(h, w, head, s)
    requires forall t :: t in s ==> t in h' && Link(h'[t], w) == Link(h[t], w)
    ensures IsList(h', w, head, s)
  {
    forall i | 0 <= i < |s| ensures Link(h'[s[i]], w) == NextIn(s, i) {
      assert Link(h[s[i]], w) == NextIn(s, i);
    }
  }

  lemma RingFrame(h: Heap, h': Heap, s: seq<nat>)
    requires IsRing(h, s)
    requires forall t :: t in s ==> t in h' && h'[t].next == h[t].next
    ensures IsRing(h', s)
  {
    forall i | 0 <= i < |s| ensures h'[s[i]].next == After(s, i) {
      assert h[s[i]].next == After(s, i);
    }
  }

  /** Pushing on the front of a list. */
  lemma PushList(h: Heap, w: Which, head: Option<nat>, s: seq<nat>, t: nat)
    requires IsList(h, w, head, s) && t in h && t !in s
    ensures IsList(h[t := SetLink(h[t], w, head)], w, Some(t), [t] + s)
  {
    var h', s' := h[t := SetLink(h[t], w, head)], [t] + s;
    forall i | 0 <= i < |s'| ensures Link(h'[s'[i]], w) == NextIn(s', i) {
      if i > 0 {
        assert s'[i] == s[i - 1];
        assert Link(h[s[i - 1]], w) == NextIn(s, i - 1);
      }
    }
  }

  function Without(s: seq<nat>, k: nat): seq<nat>
    requires k < |s|
  {
    s[..k] + s[k + 1..]
  }

  /** Cutting cell k out of a list: the link before it takes its link over. */
  function CutHeap(h: Heap, w: Which, s: seq<nat>, k: nat): Heap
    requires k < |s| && forall i :: 0 <= i < |s| ==> s[i] in h
  {
    var h1 := if k == 0 then h else h[s[k - 1] := SetLink(h[s[k - 1]], w, Link(h[s[k]], w))];
    h1[s[k] := SetLink(h1[s[k]], w, None)]
  }

  lemma WithoutMembers(s: seq<nat>, k: nat)
    requires k < |s| && Distinct(s)
    ensures forall i :: 0 <= i < |s| - 1 ==> Without(s, k)[i] == if i < k then s[i] else s[i + 1]
    ensures Distinct(Without(s, k))
    ensures forall t :: t in Without(s, k) <==> t in s && t != s[k]
  {
    var s' := Without(s, k);
    forall t | t in s && t != s[k] ensures t in s' {
      var i :| 0 <= i < |s| && s[i] == t;
      assert s'[if i < k then i else i - 1] == t;
    }
  }

  lemma CutLink(h: Heap, w: Which, head: Option<nat>, s: seq<nat>, k: nat, i: nat)
    requires IsList(h, w, head, s) && k < |s| && i < |s| - 1
    ensures Without(s, k)[i] in CutHeap(h, w, s, k)
    ensures Link(CutHeap(h, w, s, k)[Without(s, k)[i]], w) == NextIn(Without(s, k), i)
  {
    WithoutMembers(s, k);
    assert Link(h[s[k]], w) == NextIn(s, k);
    assert Link(h[s[i]], w) == NextIn(s, i);
    assert Link(h[s[i + 1]], w) == NextIn(s, i + 1);
  }

  lemma CutList(h: Heap, w: Which, head: Option<nat>, s: seq<nat>, k: nat)
    requires IsList(h, w, head, s) && k < |s|
    ensures IsList(CutHeap(h, w, s, k), w, if k == 0 then Link(h[s[0]], w) else head, Without(s, k))
    ensures forall t :: t in Without(s, k) <==> t in s && t != s[k]
  {
    var s' := Without(s, k);
    WithoutMembers(s, k);
    forall i: nat | i < |s'| ensures s'[i] in CutHeap(h, w, s, k)
                             ensures Link(CutHeap(h, w, s, k)[s'[i]], w) == NextIn(s', i) {
      CutLink(h, w, head, s, k, i);
    }
    assert Link(h[s[0]], w) == NextIn(s, 0);
  }

  /** The position before k, going round. */
  function Before(s: seq<nat>, k: int): int
    requires 0 <= k < |s|
  {
    if k == 0 then |s| - 1 else k - 1
  }

  lemma PredUnique(h: Heap, s: seq<nat>, i: nat, k: nat)
    requires IsRing(h, s) && i < |s| && k < |s| && h[s[i]].next == s[k]
    ensures i == Before(s, k)
  {
    assert h[s[i]].next == After(s, i);
  }

  /** Cutting member k out of a ring: its predecessor takes its link over. */
  lemma CutRing(h: Heap, s: seq<nat>, k: nat)
    requires IsRing(h, s) && k < |s| && |s| >= 2
    ensures var p := s[Before(s, k)]; IsRing(h[p := h[p].(next := h[s[k]].next)], Without(s, k))
    ensures forall t :: t in Without(s, k) <==> t in s && t != s[k]
  {
    var p := s[Before(s, k)];
    var h', s' := h[p := h[p].(next := h[s[k]].next)], Without(s, k);
    WithoutMembers(s, k);
    assert h[s[k]].next == After(s, k);
    forall i | 0 <= i < |s'| ensures h'[s'[i]].next == After(s', i) {
      var j := if i < k then i else i + 1;
      assert h[s[j]].next == After(s, j);
    }
  }

  /** Inserting t after the first member of a ring. */
  lemma InsertRing(h: Heap, s: seq<nat>, t: nat)
    requires IsRing(h, s) && t in h && t !in s
    ensures var h' := h[t := h[t].(next := h[s[0]].next)];
      IsRing(h'[s[0] := h'[s[0]].(next := t)], [s[0], t] + s[1..])
  {
    var h1 := h[t := h[t].(next := h[s[0]].next)];
    var h', s' := h1[s[0] := h1[s[0]].(next := t)], [s[0], t] + s[1..];
    assert h[s[0]].next == After(s, 0);
    forall i | 0 <= i < |s'| ensures h'[s'[i]].next == After(s', i) {
      if i >= 2 {
        assert s'[i] == s[i - 1];
        assert h[s[i - 1]].next == After(s, i - 1);
      }
    }
  }
}
