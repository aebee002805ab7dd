/** The scheduler and the life of tasks: fork, yield, wait, exit and reaping. */
module Sched {
  import opened Wrappers
  import opened Lists
  import opened Tasks
  import opened Life

  /** waitpid's pid argument: a child's pid, or -1 for any child. */
  predicate Matches(pid: int, t: nat)
  {
    pid == -1 || pid == t
  }

  /** The three structures hold the live tasks, the zombies, and both. */
  ghost predicate LinksOk(h: Heap, head: nat, count: nat, all: Option<nat>, zombies: Option<nat>,
                          ring: seq<nat>, alls: seq<nat>, dead: seq<nat>)
  {
    && IsRing(h, ring) && head in ring && count == |ring|
    && IsList(h, ALL, all, alls) && IsList(h, ZOMBIE, zombies, dead)
    && (forall t :: t in h <==> t in alls)
    && (forall t :: t in h <==> t in ring || t in dead)
    && (forall t :: t in ring ==> t !in dead && h[t].zombieNext == None)
  }

  /** Of the live tasks, exactly the current one runs; idle is always runnable. */
  ghost predicate RolesOk(h: Heap, current: nat, idle: nat, ring: seq<nat>, dead: seq<nat>)
  {
    && ring != [] && ring[0] == current
    && idle in ring && INIT in ring && idle != INIT
    && (forall t :: t in ring ==> t in h && h[t].state != DEAD && (h[t].state == RUNNING <==> t == current))
    && (forall t :: t in dead ==> t in h && h[t].state == DEAD)
    && (idle in h ==> h[idle].state != BLOCKED)
  }

  /** Parents are live and older than their children. */
  ghost predicate FamilyOk(h: Heap, idle: nat, nextPid: nat, ring: seq<nat>)
  {
    forall t :: t in h ==>
      && 0 < t < nextPid
      && (h[t].parent == None <==> t == INIT || t == idle)
      && (h[t].parent.Some? ==> h[t].parent.value in ring && h[t].parent.value < t && h[t].parent.value != idle)
  }

  /** No lost wakeup: a blocked task waits for a live child and no zombie of its is there to take. */
  ghost predicate WaitOk(h: Heap, ring: seq<nat>, dead: seq<nat>, waiting: map<nat, int>, b: nat)
  {
    b in ring && b in h && h[b].state == BLOCKED ==>
      && b in waiting
      && (exists c :: c in ring && c in h && h[c].parent == Some(b) && Matches(waiting[b], c))
      && (forall z :: z in dead && z in h ==> !(h[z].parent == Some(b) && Matches(waiting[b], z)))
  }

  ghost predicate WaitsOk(h: Heap, ring: seq<nat>, dead: seq<nat>, waiting: map<nat, int>)
  {
    forall b {:trigger WaitOk(h, ring, dead, waiting, b)} :: WaitOk(h, ring, dead, waiting, b)
  }

  function Status(code: int): int
  {
    code % 256 * 256
  }

  /** The exit code is in the second byte, where the shell looks for it. */
  lemma StatusBytes(code: int)
    ensures 0 <= Status(code) < 0x1_0000 && Status(code) % 256 == 0 && Status(code) / 256 == code % 256
  {}

  /** What the structs and their lists say about the processes. */
  ghost function SceneOf(h: Heap, ring: seq<nat>, dead: seq<nat>, waiting: map<nat, int>, exited: map<nat, int>,
                         log: seq<Reap>, nextPid: nat, idle: nat): Scene
  {
    Scene(Procs(h), ring, dead, waiting, exited, log, nextPid, idle)
  }

  ghost function Procs(h: Heap): map<nat, Proc>
  {
    map t | t in h :: Proc(h[t].state, h[t].parent, h[t].exitCode)
  }

  /** Every task exits before it is freed and is freed once. */
  ghost predicate HistoryOk(h: Heap, nextPid: nat, dead: seq<nat>, exited: map<nat, int>, log: seq<Reap>)
  {
    && (forall t :: t in exited ==> t < nextPid)
    && (forall t :: t in dead ==> t in h && t in exited && exited[t] == h[t].exitCode)
    && (forall t :: t in h && t !in dead ==> t !in exited)
    && (forall i :: 0 <= i < |log| ==>
          log[i].pid !in h && log[i].pid in exited && log[i].status == Status(exited[log[i].pid]))
    && (forall i, j :: 0 <= i < j < |log| ==> log[i].pid != log[j].pid)
  }

  class Kernel {
    var h: Heap
    var current: nat
    var head: nat
    var count: nat
    var idle: nat
    var nextPid: nat
    var all: Option<nat>
    var zombies: Option<nat>
    /** Tasks suspended inside the loop of waitpid, with its pid argument. */
    var waiting: map<nat, int>
    ghost var ring: seq<nat>
    ghost var alls: seq<nat>
    ghost var dead: seq<nat>
    ghost var exited: map<nat, int>
    ghost var log: seq<Reap>

    ghost predicate Links()
      reads this
    {
      LinksOk(h, head, count, all, zombies, ring, alls, dead)
    }

    ghost predicate Valid()
      reads this
    {
      && Links()
      && RolesOk(h, current, idle, ring, dead)
      && FamilyOk(h, idle, nextPid, ring)
      && WaitsOk(h, ring, dead, waiting)
      && HistoryOk(h, nextPid, dead, exited, log)
    }

    ghost function Shown(): Scene
      reads this
    {
      SceneOf(h, ring, dead, waiting, exited, log, nextPid, idle)
    }

    /** After sched_start: init runs, idle is ready. */
    constructor ()
      ensures Valid() && ring == [INIT, 2] && current == INIT && idle == 2 && nextPid == 3
      ensures dead == [] && exited == map[] && log == [] && waiting == map[]
    {
      h := map[INIT := Task(RUNNING, None, 0, 2, None, None), 2 := Task(READY, None, 0, INIT, Some(INIT), None)];
      current, head, count, idle, nextPid := INIT, INIT, 2, 2, 3;
      all, zombies, waiting := Some(2), None, map[];
      ring, alls, dead, exited, log := [INIT, 2], [2, INIT], [], map[], [];
    }

    /** The scan of schedule: the first runnable task after the current one, going round. */
    method PickNext() returns (next: nat)
      requires Links() && ring[0] == current
      ensures ghost var d := FirstRunnable(h, ring, 1);
        d < |ring| ==>
          && next == ring[d] && (h[next].state == READY || h[next].state == RUNNING)
          && forall j :: 1 <= j < d ==> h[ring[j]].state == BLOCKED || h[ring[j]].state == DEAD
      ensures FirstRunnable(h, ring, 1) == |ring| && Runnable(h[current]) ==> next == current
    {
      next := h[current].next;
      assert next == After(ring, 0);
      var i := 0;
      while i < count
        invariant 0 <= i <= count
        invariant i < count ==> next == After(ring, i)
        invariant i < count ==> FirstRunnable(h, ring, 1) == FirstRunnable(h, ring, i + 1)
        invariant i == count ==> FirstRunnable(h, ring, 1) == |ring| && !Runnable(h[current])
      {
        if Runnable(h[next]) {
          break;
        }
        if i + 1 < count { assert After(ring, i + 1) == h[ring[i + 1]].next; }
        next := h[next].next;
        i := i + 1;
      }
    }

    /** The search of sched_remove: from the head, going round, to the predecessor of t. */
    method FindPrev(t: nat) returns (prev: nat)
      requires IsRing(h, ring) && head in ring && t in ring
      ensures prev in ring && h[prev].next == t
    {
      ghost var o :| 0 <= o < |ring| && ring[o] == head;
      ghost var r := Rotate(ring, o);
      RotateRing(h, ring, o);
      prev := head;
      ghost var i := 0;
      while h[prev].next != t && h[prev].next != head
        invariant 0 <= i < |r| && prev == r[i]
        invariant forall j :: 1 <= j <= i ==> r[j] != t
        decreases |r| - i
      {
        assert h[r[i]].next == After(r, i);
        prev := h[prev].next;
        i := i + 1;
      }
      assert h[r[i]].next == After(r, i);
      assert t in r;
    }

    /** Unlinks a task from the run queue. */
    method SchedRemove(t: nat)
      requires IsRing(h, ring) && head in ring && count == |ring| && t in ring && |ring| >= 2
      modifies this`h, this`head, this`count, this`ring
      ensures IsRing(h, ring) && head in ring && count == |ring| == |old(ring)| - 1
      ensures exists k :: 0 <= k < |old(ring)| && old(ring)[k] == t && ring == Without(old(ring), k)
      ensures forall x :: x in ring <==> x in old(ring) && x != t
      ensures h.Keys == old(h).Keys
      ensures forall x :: x in h ==> h[x] == old(h)[x].(next := h[x].next)
    {
      hide Distinct;
      var prev := FindPrev(t);
      ghost var k :| 0 <= k < |ring| && ring[k] == t;
      ghost var p :| 0 <= p < |ring| && ring[p] == prev;
      PredUnique(h, ring, p, k);
      CutRing(h, ring, k);
      assert h[t].next == After(ring, k);
      h := h[prev := h[prev].(next := h[t].next)];
      if head == t {
        head := h[t].next;
      }
      count := count - 1;
      ring := Without(ring, k);
    }

    /** Hands the children of x to init, and wakes init. */
    method ReparentChildren(x: nat)
      requires IsList(h, ALL, all, alls) && (forall t :: t in h <==> t in alls)
      requires x != INIT && INIT in h && h[INIT].state != DEAD
      modifies this`h
      ensures h == Wake(Reparented(old(h), x), INIT)
    {
      var t := all;
      ghost var i := 0;
      while t.Some?
        invariant 0 <= i <= |alls| && t == At(alls, i)
        invariant h.Keys == old(h).Keys
        invariant forall j :: 0 <= j < i ==> h[alls[j]] == Adopted(old(h)[alls[j]], x)
        invariant forall j :: i <= j < |alls| ==> h[alls[j]] == old(h)[alls[j]]
        decreases |alls| - i
      {
        assert Link(old(h)[alls[i]], ALL) == NextIn(alls, i);
        if h[t.value].parent == Some(x) {
          h := h[t.value := h[t.value].(parent := Some(INIT))];
        }
        t := h[t.value].allNext;
        i := i + 1;
      }
      assert forall u :: u in h ==> h[u] == Adopted(old(h)[u], x);
      assert h == Reparented(old(h), x);
      if h[INIT].state == BLOCKED {
        h := h[INIT := h[INIT].(state := READY)];
      }
    }

    /** Moves a dead task to the zombie list and wakes its parent. */
    method Zombify(x: nat)
      requires IsList(h, ALL, all, alls) && (forall t :: t in h <==> t in alls)
      requires x != INIT && INIT in h && h[INIT].state != DEAD
      requires x in h && h[x].zombieNext == None
      requires h[x].parent.Some? && h[x].parent.value in h && h[x].parent.value != x
      modifies this`h, this`zombies, this`dead
      ensures zombies == Some(x) && dead == [x] + old(dead)
      ensures h == Zombified(old(h), x, old(zombies))
    {
      ReparentChildren(x);
      h := h[x := h[x].(zombieNext := zombies)];
      zombies := Some(x);
      dead := [x] + dead;
      var p := h[x].parent;
      if p.Some? && h[p.value].state == BLOCKED {
        h := h[p.value := h[p.value].(state := READY)];
      }
    }

    /** The tail of schedule: the switch to next. */
    method Switch(next: nat)
      requires Links() && next in ring
      modifies this`h, this`current, this`ring
      ensures Links() && current == next && ring[0] == next
      ensures forall d :: 0 <= d < |old(ring)| && old(ring)[d] == next ==> ring == Rotate(old(ring), d)
      ensures forall t :: t in ring <==> t in old(ring)
      ensures h == old(h)[next := old(h)[next].(state := RUNNING)]
    {
      hide Distinct, IsList;
      ghost var d :| 0 <= d < |ring| && ring[d] == next;
      OnePlace(ring, d);
      current := next;
      h := h[next := h[next].(state := RUNNING)];
      RelinkedOk(old(h), h, head, count, all, zombies, ring, alls, dead);
      RotateRing(h, ring, d);
      ring := Rotate(ring, d);
    }

    /** The retirement of the dead current task, up to the choice of its parent. */
    method Retire()
      requires Links() && ring[0] == current && |ring| >= 2 && INIT in ring && current != INIT && h[INIT].state != DEAD
      requires h[current].parent.Some? && h[current].parent.value in ring && h[current].parent.value != current
      modifies this`h, this`head, this`count, this`ring, this`zombies, this`dead
      ensures Links() && dead == [current] + old(dead) && zombies == Some(current)
      ensures forall t :: t in ring <==> t in old(ring) && t != current
      ensures ring == old(ring)[1..]
      ensures RetiredBy(old(h), h, current, old(zombies))
    {
      hide Without, Zombified, Distinct;
      SchedRemove(current);
      FirstOut(old(h), old(ring), ring, current);
      ghost var hB := h;
      AfterRemove(old(h), h, old(head), old(count), head, count, all, zombies, old(ring), ring, alls, dead, current);
      Zombify(current);
      AfterZombify(hB, h, head, count, all, old(zombies), ring, alls, old(dead), current);
      assert RetiredBy(old(h), h, current, old(zombies));
    }

    /** Round robin: to the first runnable task after the current one, or, from a
        dead task, to its parent. The fallback to idle is never needed. */
    method Schedule()
      requires Links() && ring[0] == current && idle in ring && INIT in ring
      requires h[idle].state == READY || (idle == current && h[idle].state == RUNNING)
      requires h[current].state != READY
      requires h[current].state == DEAD ==>
        && |ring| >= 2 && current != INIT && h[INIT].state != DEAD && h[current].parent.Some?
        && var p := h[current].parent.value; p in ring && p != current && h[p].state != DEAD
      modifies this`h, this`current, this`ring, this`head, this`count, this`zombies, this`dead
      ensures Links() && ring[0] == current
      ensures old(h[current].state) != DEAD ==>
        && dead == old(dead) && (forall t :: t in ring <==> t in old(ring))
        && ghost var d := FirstRunnable(old(h), old(ring), 1);
        && (d < |old(ring)| ==> current == old(ring)[d] && ring == Rotate(old(ring), d))
        && (d == |old(ring)| ==> current == old(current) && ring == old(ring))
        && (d == |old(ring)| ==> old(h[current].state) == RUNNING)
        && h == Switched(old(h), old(current), current)
        // In terms of states: who runs now could, and whoever was passed over could not.
        && (old(h)[current].state == READY || old(h)[current].state == RUNNING)
        && (forall j :: 1 <= j < d ==> old(h)[old(ring)[j]].state == BLOCKED || old(h)[old(ring)[j]].state == DEAD)
      ensures old(h[current].state) == DEAD ==>
        && ghost var x := old(current);
        && old(h)[x].parent == Some(current)
        && (forall t :: t in ring <==> t in old(ring) && t != x)
        && dead == [x] + old(dead) && LeftFor(old(ring), ring, current)
        && ExitedHeap(old(h), h, x, current, old(h)[x].exitCode)
    {
      var next := PickNext();
      if h[current].state == DEAD {
        LeaveDead(next);
      } else {
        LeaveLive(next);
      }
    }

    /** The dead current task is retired and its parent takes over. */
    method LeaveDead(picked: nat)
      requires Links() && ring[0] == current && INIT in ring && h[current].state == DEAD
      requires |ring| >= 2 && current != INIT && h[INIT].state != DEAD && h[current].parent.Some?
      requires var p := h[current].parent.value; p in ring && p != current && h[p].state != DEAD
      modifies this`h, this`current, this`ring, this`head, this`count, this`zombies, this`dead
      ensures Links() && ring[0] == current
      ensures ghost var x := old(current);
        && old(h)[x].parent == Some(current)
        && (forall t :: t in ring <==> t in old(ring) && t != x)
        && dead == [x] + old(dead) && LeftFor(old(ring), ring, current)
        && ExitedHeap(old(h), h, x, current, old(h)[x].exitCode)
    {
      hide LinksOk;
      DeadParent(h, head, count, all, zombies, ring, alls, dead);
      var next, parent := picked, h[current].parent;
      Retire();
      ghost var hC := h;
      ParentReady(old(h), h, current, parent.value, old(zombies));
      if parent.Some? && Runnable(h[parent.value]) {
        next := parent.value;
      }
      Switch(next);
      assert RetiredBy(old(h), hC, old(current), old(zombies)) && h == hC[next := hC[next].(state := RUNNING)];
      ExitAdds(old(h), h, old(current), parent.value, old(zombies));
      RotatedAway(old(ring), ring, next);
    }

    /** A live task gives way to the one picked, or goes on if it is the only one. */
    method LeaveLive(picked: nat)
      requires Links() && ring[0] == current && idle in ring
      requires h[idle].state == READY || (idle == current && h[idle].state == RUNNING)
      requires h[current].state == RUNNING || h[current].state == BLOCKED
      requires ghost var d := FirstRunnable(h, ring, 1);
        && (d < |ring| ==> picked == ring[d])
        && (d == |ring| && Runnable(h[current]) ==> picked == current)
      modifies this`h, this`current, this`ring
      ensures Links() && ring[0] == current
      ensures forall t :: t in ring <==> t in old(ring)
      ensures ghost var d := FirstRunnable(old(h), old(ring), 1);
        && (d < |old(ring)| ==> current == old(ring)[d] && ring == Rotate(old(ring), d))
        && (d == |old(ring)| ==> current == old(current) && ring == old(ring) && old(h[current].state) == RUNNING)
      ensures h == Switched(old(h), old(current), current)
    {
      hide Distinct, IsList;
      var next := picked;
      IdleFound(h, ring, idle);
      if h[current].state == RUNNING {
        h := h[current := h[current].(state := READY)];
        RelinkedOk(old(h), h, head, count, all, zombies, ring, alls, dead);
      }
      assert Runnable(h[next]);
      if !Runnable(h[next]) {
        next := idle;
      }
      if next == current {
        h := h[current := h[current].(state := RUNNING)];
        RelinkedOk(old(h), h, head, count, all, zombies, ring, alls, dead);
        return;
      }
      Switch(next);
    }

    /** A voluntary yield: the next ready task in ring order runs. */
    method Yield()
      requires Valid()
      modifies this`h, this`current, this`ring, this`head, this`count, this`zombies, this`dead
      ensures Valid() && dead == old(dead) && (forall t :: t in ring <==> t in old(ring))
      ensures ghost var d := FirstRunnable(old(h), old(ring), 1);
        && (d < |old(ring)| ==> current == old(ring)[d] && ring == Rotate(old(ring), d))
        && (d == |old(ring)| ==> current == old(current) && ring == old(ring))
      ensures h == Switched(old(h), old(current), current) && h.Keys == old(h.Keys)
      ensures YieldStep(old(Shown()), Shown())
    {
      hide LinksOk, RolesOk, FamilyOk, WaitsOk, HistoryOk, SceneOf, YieldStep;
      ghost var c := current;
      SchedReady(h, current, idle, head, count, all, zombies, ring, alls, dead);
      Schedule();
      SwitchValid(old(h), old(h), h, c, current, idle, nextPid, old(ring), ring, dead, exited, log);
      SwitchWaits(old(h), h, c, current, old(ring), ring, dead, waiting);
      YieldShown(old(h), h, old(ring), ring, dead, waiting, exited, log, nextPid, idle);
    }

    /** The current task exits: its children pass to init, it becomes a zombie,
        and its parent, woken if need be, runs. */
    method Exit(code: int)
      requires Valid() && current != INIT && current != idle && current !in waiting
      modifies this`h, this`current, this`ring, this`head, this`count, this`zombies, this`dead, this`exited
      ensures Valid()
      ensures ghost var x := old(current);
        && old(h)[x].parent == Some(current)
        && (forall t :: t in ring <==> t in old(ring) && t != x)
        && dead == [x] + old(dead) && exited == old(exited)[x := code]
        && ExitedHeap(old(h), h, x, current, code)
      ensures h.Keys == old(h.Keys) && ExitStep(old(Shown()), code, Shown())
    {
      hide LinksOk, RolesOk, FamilyOk, WaitsOk, HistoryOk, ExitedHeap, SceneOf, ExitStep, LeftFor;
      hide FirstRunnable, Rotate, Switched, Distinct, Runnable;
      ghost var x, h0, ring0, dead0, exited0 := current, h, ring, dead, exited;
      SchedReady(h, current, idle, head, count, all, zombies, ring, alls, dead);
      ExitReady(h, current, idle, nextPid, ring, dead);
      h := h[current := h[current].(exitCode := code, state := DEAD)];
      RelinkedOk(h0, h, head, count, all, zombies, ring, alls, dead);
      ghost var hS := h;
      Schedule();
      exited := exited[x := code];
      ExitedSame(h0, hS, h, x, current, code);
      ExitValid(h0, h, x, current, code, idle, nextPid, ring0, ring, dead0, waiting, exited0, log);
      ExitShown(h0, h, x, current, code, ring0, ring, dead0, waiting, exited0, log, nextPid, idle);
    }

    /** Is there a child of parent, live or dead, that matches? */
    method HasChild(parent: nat, pid: int) returns (found: bool)
      requires IsList(h, ALL, all, alls)
      ensures found <==> exists t :: t in alls && t in h && h[t].parent == Some(parent) && (pid == -1 || pid == t)
    {
      var t := all;
      ghost var i := 0;
      while t.Some?
        invariant 0 <= i <= |alls| && t == At(alls, i)
        invariant forall j :: 0 <= j < i ==> !(h[alls[j]].parent == Some(parent) && Matches(pid, alls[j]))
        decreases |alls| - i
      {
        if h[t.value].parent == Some(parent) && Matches(pid, t.value) {
          return true;
        }
        assert Link(h[alls[i]], ALL) == NextIn(alls, i);
        t := h[t.value].allNext;
        i := i + 1;
      }
      return false;
    }

    /** The search of take_zombie: the first matching zombie and the cell whose link points to it. */
    method FindZombie(parent: nat, pid: int) returns (prev: Option<nat>, z: Option<nat>)
      requires IsList(h, ZOMBIE, zombies, dead)
      ensures z.None? ==> forall t :: t in dead && t in h ==> !(h[t].parent == Some(parent) && Matches(pid, t))
      ensures z.Some? ==>
        && z.value in h && h[z.value].parent == Some(parent) && Matches(pid, z.value)
        && (exists k :: 0 <= k < |dead| && dead[k] == z.value && prev == At(dead, k - 1))
        && LatestMatch(h, dead, parent, pid, z.value)
    {
      prev, z := None, zombies;
      ghost var i := 0;
      while z.Some?
        invariant 0 <= i <= |dead| && z == At(dead, i) && prev == At(dead, i - 1)
        invariant forall j :: 0 <= j < i ==> !(h[dead[j]].parent == Some(parent) && Matches(pid, dead[j]))
        decreases |dead| - i
      {
        if h[z.value].parent == Some(parent) && Matches(pid, z.value) {
          assert dead[i] == z.value;
          return;
        }
        assert Link(h[dead[i]], ZOMBIE) == NextIn(dead, i);
        prev, z := z, h[z.value].zombieNext;
        i := i + 1;
      }
    }

    /** The search of task_unregister: the cell whose link points to t. */
    method FindBefore(t: nat) returns (prev: Option<nat>)
      requires IsList(h, ALL, all, alls) && t in alls
      ensures exists k :: 0 <= k < |alls| && alls[k] == t && prev == At(alls, k - 1)
    {
      prev := None;
      var cell := all;
      ghost var i := 0;
      while cell != Some(t)
        invariant 0 <= i < |alls| && cell == At(alls, i) && prev == At(alls, i - 1)
        invariant forall j :: 0 <= j < i ==> alls[j] != t
        decreases |alls| - i
      {
        assert Link(h[alls[i]], ALL) == NextIn(alls, i);
        prev, cell := cell, h[cell.value].allNext;
        i := i + 1;
        assert i < |alls| by { assert exists k :: i <= k < |alls| && alls[k] == t; }
      }
      assert alls[i] == t;
    }

    /** Takes a matching zombie off both lists. */
    method TakeZombie(parent: nat, pid: int) returns (r: Option<nat>)
      requires Links()
      modifies this`h, this`zombies, this`all, this`dead, this`alls
      ensures r.None? ==> Links() && h == old(h) && dead == old(dead) && alls == old(alls) && all == old(all)
      ensures r.None? ==> forall t :: t in dead && t in h ==> !(h[t].parent == Some(parent) && Matches(pid, t))
      ensures r.Some? ==>
        && ghost var z := r.value;
        && z in old(dead) && z in old(h) && old(h)[z].parent == Some(parent) && Matches(pid, z)
        && Unlisted(old(h), h, all, zombies, ring, old(alls), alls, old(dead), dead, z)
        && LatestMatch(old(h), old(dead), parent, pid, z) && TakenOut(old(dead), z, dead)
    {
      var prev, z := FindZombie(parent, pid);
      if z.None? {
        return None;
      }
      CutZombie(prev, z.value);
      Unregister(z.value);
      return z;
    }

    method CutZombie(prev: Option<nat>, z: nat)
      requires IsList(h, ALL, all, alls) && IsRing(h, ring) && IsList(h, ZOMBIE, zombies, dead)
      requires exists k :: 0 <= k < |dead| && dead[k] == z && prev == At(dead, k - 1)
      modifies this`h, this`zombies, this`dead
      ensures IsList(h, ALL, all, alls) && IsRing(h, ring) && IsList(h, ZOMBIE, zombies, dead)
      ensures forall x :: x in dead <==> x in old(dead) && x != z
      ensures TakenOut(old(dead), z, dead)
      ensures ListLinksOnly(old(h), h)
      ensures forall x :: x in h && x !in old(dead) ==> h[x].zombieNext == old(h)[x].zombieNext
    {
      ghost var k :| 0 <= k < |dead| && dead[k] == z && prev == At(dead, k - 1);
      CutList(h, ZOMBIE, zombies, dead, k);
      ghost var h1 := CutHeap(h, ZOMBIE, dead, k);
      if prev.None? {
        zombies := h[z].zombieNext;
      } else {
        h := h[prev.value := h[prev.value].(zombieNext := h[z].zombieNext)];
      }
      h := h[z := h[z].(zombieNext := None)];
      dead := Without(dead, k);
      assert h == h1;
      RingFrame(old(h), h, ring);
      ListFrame(old(h), h, ALL, all, alls);
    }

    method Unregister(t: nat)
      requires IsList(h, ALL, all, alls) && t in alls && IsRing(h, ring) && IsList(h, ZOMBIE, zombies, dead)
      modifies this`h, this`all, this`alls
      ensures IsList(h, ALL, all, alls) && IsRing(h, ring) && IsList(h, ZOMBIE, zombies, dead)
      ensures forall x :: x in alls <==> x in old(alls) && x != t
      ensures ListLinksOnly(old(h), h) && forall x :: x in h ==> h[x].zombieNext == old(h)[x].zombieNext
    {
      hide Without;
      var prev := FindBefore(t);
      ghost var k :| 0 <= k < |alls| && alls[k] == t && prev == At(alls, k - 1);
      CutList(h, ALL, all, alls, k);
      ghost var h1 := CutHeap(h, ALL, alls, k);
      if prev.None? {
        all := h[t].allNext;
      } else {
        h := h[prev.value := h[prev.value].(allNext := h[t].allNext)];
      }
      h := h[t := h[t].(allNext := None)];
      alls := Without(alls, k);
      assert h == h1;
      RingFrame(old(h), h, ring);
      ListFrame(old(h), h, ZOMBIE, zombies, dead);
    }

    /** Frees the zombie z, which is off the lists, and reports its status. */
    method FinishReap(z: nat, ghost h0: Heap, ghost all0: Option<nat>, ghost zombies0: Option<nat>,
                      ghost dead0: seq<nat>, ghost alls0: seq<nat>) returns (status: int)
      requires LinksOk(h0, head, count, all0, zombies0, ring, alls0, dead0)
      requires Unlisted(h0, h, all, zombies, ring, alls0, alls, dead0, dead, z)
      requires z in dead0 && h0[z].parent == Some(current)
      requires RolesOk(h0, current, idle, ring, dead0) && FamilyOk(h0, idle, nextPid, ring)
      requires WaitsOk(h0, ring, dead0, waiting) && HistoryOk(h0, nextPid, dead0, exited, log)
      modifies this`h, this`waiting, this`log
      ensures Valid() && FreedHeap(h0, h, z) && status == Status(h0[z].exitCode)
      ensures log == old(log) + [Reap(current, z, status)] && waiting == old(waiting) - {current}
    {
      hide LinksOk, RolesOk, FamilyOk, WaitsOk, HistoryOk, FreedHeap, Unlisted, Status;
      FreedLinks(h0, h, head, count, all0, zombies0, all, zombies, ring, alls0, alls, dead0, dead, z);
      FreedRest(h0, h - {z}, z, current, idle, nextPid, ring, dead0, dead, waiting, exited, log);
      status := Status(h[z].exitCode);
      h := h - {z};
      waiting := waiting - {current};
      log := log + [Reap(current, z, status)];
    }

    /** The current task, with a matching live child, blocks. */
    method Block(pid: int)
      requires Valid() && !HasZombie(h, dead, current, pid) && HasAny(h, current, pid)
      modifies this`h, this`current, this`ring, this`head, this`count, this`zombies, this`dead, this`waiting
      ensures Valid() && dead == old(dead) && (forall t :: t in ring <==> t in old(ring))
      ensures waiting == old(waiting)[old(current) := pid]
      ensures BlockedFor(old(h), old(ring), old(current), h, current)
      ensures WaitStep(old(Shown()), pid, false, Blocks, Shown())
    {
      hide LinksOk, RolesOk, FamilyOk, WaitsOk, HistoryOk, Distinct, HasZombie, HasAny, Rotate, SceneOf, WaitStep;
      ghost var c, h0, ring0 := current, h, ring;
      SchedReady(h, current, idle, head, count, all, zombies, ring, alls, dead);
      BlockReady(h, current, idle, nextPid, head, count, all, zombies, ring, alls, dead, waiting, pid);
      h := h[current := h[current].(state := BLOCKED)];
      waiting := waiting[current := pid];
      RelinkedOk(h0, h, head, count, all, zombies, ring, alls, dead);
      ghost var hS := h;
      BlockedScan(h0, hS, c, ring);
      Schedule();
      SwitchValid(h0, hS, h, c, current, idle, nextPid, ring0, ring, dead, exited, log);
      SwitchWaits(hS, h, c, current, ring0, ring, dead, waiting);
      BlockShown(h0, h, ring0, ring, dead, old(waiting), exited, log, nextPid, idle, pid);
    }

    /** One round of the loop of waitpid: reap a matching zombie, give up if there
        is no matching child, or block and let others run. */
    method WaitRound(pid: int, nohang: bool) returns (r: WaitResult)
      requires Valid()
      modifies this`h, this`current, this`ring, this`head, this`count, this`zombies, this`dead,
               this`all, this`alls, this`waiting, this`log
      ensures Valid()
      ensures r.Reaped? <==> HasZombie(old(h), old(dead), old(current), pid)
      ensures r == NoChild <==> !HasAny(old(h), old(current), pid)
      ensures r == NotYet ==> nohang
      ensures r == Blocks ==> !nohang
      ensures r.Reaped? ==>
        && ghost var z := r.pid;
        && z in old(dead) && z in old(h) && old(h)[z].parent == Some(current) && Matches(pid, z)
        && r.status == Status(old(h)[z].exitCode) && log == old(log) + [Reap(current, z, r.status)]
        && current == old(current) && ring == old(ring) && waiting == old(waiting) - {current}
        && FreedHeap(old(h), h, z) && (forall t :: t in dead <==> t in old(dead) && t != z)
      ensures r == NoChild || r == NotYet ==>
        && h == old(h) && current == old(current) && ring == old(ring) && dead == old(dead)
        && log == old(log) && waiting == old(waiting) - {current}
      ensures r == Blocks ==>
        && log == old(log) && dead == old(dead) && waiting == old(waiting)[old(current) := pid]
        && (forall t :: t in ring <==> t in old(ring))
        && BlockedFor(old(h), old(ring), old(current), h, current)
      ensures h.Keys == old(h.Keys) - (if r.Reaped? then {r.pid} else {})
      ensures WaitStep(old(Shown()), pid, nohang, r, Shown())
    {
      hide LinksOk, RolesOk, FamilyOk, WaitsOk, HistoryOk, FreedHeap, FirstRunnable, Runnable, At, Rotate;
      hide SceneOf, WaitStep, LatestMatch, TakenOut, Distinct, Status, Unlisted;
      ghost var h0, all0, zombies0, dead0, alls0 := h, all, zombies, dead, alls;
      CurrentShown(h, current, idle, ring, dead);
      AllListed(h, head, count, all, zombies, ring, alls, dead);
      var z := TakeZombie(current, pid);
      if z.Some? {
        var status := FinishReap(z.value, h0, all0, zombies0, dead0, alls0);
        FreedKeys(h0, h, z.value);
        ReapShown(h0, h, ring, dead0, dead, old(waiting), exited, old(log), nextPid, idle, pid, nohang, z.value);
        return Reaped(z.value, status);
      }
      r := WaitOn(pid, nohang);
    }

    /** The rest of the round, when there is no zombie to take: give up or block. */
    method WaitOn(pid: int, nohang: bool) returns (r: WaitResult)
      requires Valid() && !HasZombie(h, dead, current, pid)
      modifies this`h, this`current, this`ring, this`head, this`count, this`zombies, this`dead, this`waiting
      ensures Valid() && !r.Reaped? && (r == NoChild <==> !HasAny(old(h), old(current), pid))
      ensures (r == NotYet ==> nohang) && (r == Blocks ==> !nohang)
      ensures r == NoChild || r == NotYet ==>
        && h == old(h) && current == old(current) && ring == old(ring) && dead == old(dead)
        && waiting == old(waiting) - {current}
      ensures r == Blocks ==>
        && dead == old(dead) && waiting == old(waiting)[old(current) := pid]
        && (forall t :: t in ring <==> t in old(ring))
        && BlockedFor(old(h), old(ring), old(current), h, current)
      ensures h.Keys == old(h.Keys)
      ensures WaitStep(old(Shown()), pid, nohang, r, Shown())
    {
      hide LinksOk, RolesOk, FamilyOk, WaitsOk, HistoryOk, FirstRunnable, Runnable, At, Rotate;
      hide SceneOf, WaitStep, Distinct, HasZombie;
      CurrentShown(h, current, idle, ring, dead);
      AllListed(h, head, count, all, zombies, ring, alls, dead);
      LeaveShown(h, ring, dead, waiting, exited, log, nextPid, idle, pid, nohang);
      var found := HasChild(current, pid);
      if !found {
        Resume(h, ring, dead, waiting, current, idle);
        waiting := waiting - {current};
        return NoChild;
      }
      if nohang {
        Resume(h, ring, dead, waiting, current, idle);
        waiting := waiting - {current};
        return NotYet;
      }
      Block(pid);
      return Blocks;
    }

    /** Links a new task into the run queue, right after the current one. */
    method SchedAdd(t: nat)
      requires IsRing(h, ring) && ring[0] == current && count == |ring| && t in h && t !in ring
      modifies this`h, this`count, this`ring
      ensures IsRing(h, ring) && count == |ring| && ring == [current, t] + old(ring)[1..]
      ensures RunLinksOnly(old(h), h)
    {
      InsertRing(h, ring, t);
      h := h[t := h[t].(next := h[current].next)];
      h := h[current := h[current].(next := t)];
      count := count + 1;
      ring := [ring[0], t] + ring[1..];
    }

    /** Fork of the current user task, given whether memory suffices: the child is
        ready and next in line. The idle task is not a user task. */
    method Fork(memory: bool) returns (child: Option<nat>)
      requires Valid() && current !in waiting
      modifies this`h, this`count, this`ring, this`all, this`alls, this`nextPid
      ensures Valid()
      ensures child.None? <==> current == idle || !memory
      ensures child.None? ==> h == old(h) && ring == old(ring) && nextPid == old(nextPid)
      ensures child.Some? ==>
        && ghost var c := child.value;
        && c == old(nextPid) == nextPid - 1 && c !in old(h)
        && ring == [current, c] + old(ring)[1..]
        && WithChild(old(h), h, c, current)
      ensures ForkStep(old(Shown()), memory, child, Shown())
    {
      hide LinksOk, IsList, IsRing, RolesOk, FamilyOk, WaitsOk, HistoryOk, WithChild, SceneOf, ForkStep;
      ForkReady(h, current, idle, nextPid, ring, dead, exited, log);
      ForkRefused(h, ring, dead, waiting, exited, log, nextPid, idle, memory);
      if current == idle || !memory {
        return None;
      }
      ghost var h0, ring0 := h, ring;
      var c := nextPid;
      nextPid := nextPid + 1;
      StartChild(c);
      ForkRest(h0, h, c, current, idle, old(nextPid), ring0, ring, dead, waiting, exited, log);
      ForkShown(h0, h, ring0, ring, dead, waiting, exited, log, c, idle);
      return Some(c);
    }

    /** Registers the new task c as a child of the current one and queues it. */
    method StartChild(c: nat)
      requires Links() && c !in h && current in h && ring[0] == current
      modifies this`h, this`count, this`ring, this`all, this`alls
      ensures Links() && WithChild(old(h), h, c, current)
      ensures ring == [current, c] + old(ring)[1..]
      ensures c !in dead && forall t :: t in ring <==> t in old(ring) || t == c
    {
      hide LinksOk, IsList, IsRing, Distinct, RunLinksOnly, At, After;
      ghost var h0, ring0, alls0 := h, ring, alls;
      h := h[c := Task(READY, Some(current), 0, 0, all, None)];
      all, alls := Some(c), [c] + alls;
      ghost var h1 := h;
      ForkListed(h0, h1, head, count, old(all), zombies, ring0, alls0, dead, c);
      SchedAdd(c);
      ForkLinks(h0, h1, h, head, old(count), count, old(all), zombies, ring0, ring, alls0, dead, c);
    }

    /** waitpid as called: bad arguments are refused. A task that blocks inside
        goes on with its next round when it runs again. */
    method Waitpid(pid: int, options: int) returns (r: Option<WaitResult>)
      requires Valid() && current !in waiting
      modifies this`h, this`current, this`ring, this`head, this`count, this`zombies, this`dead,
               this`all, this`alls, this`waiting, this`log
      ensures Valid() && old(log) <= log
      ensures r.None? <==> pid == 0 || pid < -1 || !(options == 0 || options == WNOHANG)
      ensures r.None? ==> h == old(h) && ring == old(ring) && log == old(log)
      ensures r.Some? ==>
        && (r.value.Reaped? <==> HasZombie(old(h), old(dead), old(current), pid))
        && (r.value == NoChild <==> !HasAny(old(h), old(current), pid))
        && (r.value == NotYet ==> options == WNOHANG) && (r.value == Blocks ==> options == 0)
      ensures r.Some? && r.value.Reaped? ==>
        && ghost var z := r.value.pid;
        && z in old(dead) && z in old(h) && old(h)[z].parent == Some(current) && (pid == -1 || pid == z) && z !in h
        && z in exited && log == old(log) + [Reap(current, z, r.value.status)]
        // The low eight bits of the code that z exited with, in the second byte.
        && 0 <= r.value.status < 0x1_0000 && r.value.status % 256 == 0 && r.value.status / 256 == exited[z] % 256
        && current == old(current)
      ensures h.Keys == old(h.Keys) - (if r.Some? && r.value.Reaped? then {r.value.pid} else {})
      ensures if r.None? then Shown() == old(Shown())
              else WaitStep(old(Shown()), pid, options == 1, r.value, Shown())
    {
      hide LinksOk, RolesOk, FamilyOk, WaitsOk, HistoryOk, SceneOf, WaitStep, BlockedFor, FreedHeap;
      if pid == 0 || pid < -1 || !(options == 0 || options == WNOHANG) {
        return None;
      }
      ZombieCodes(h, nextPid, dead, exited, log);
      var w := WaitRound(pid, options == WNOHANG);
      return Some(w);
    }

    /** The idle loop's search for zombies without a parent finds none. */
    method ReapDetached()
      requires Valid()
      ensures forall z :: z in dead ==> z in h && h[z].parent.Some? && h[z].parent.value in ring
    {
      hide IsRing, Distinct, WaitsOk, HistoryOk, RolesOk, FamilyOk;
      ZombieParents(h, current, idle, ring, dead, nextPid);
      var z := zombies;
      ghost var i := 0;
      while z.Some?
        invariant 0 <= i <= |dead| && z == At(dead, i)
        decreases |dead| - i
      {
        assert dead[i] in h && Link(h[dead[i]], ZOMBIE) == NextIn(dead, i);
        assert h[z.value].parent.Some?;
        z := h[z.value].zombieNext;
        i := i + 1;
      }
    }

    /** Any run of the kernel: whichever task is current either goes on with a
        suspended wait or performs the next operation. */
    method Run(ops: seq<Op>) returns (answers: seq<Answer>, ghost scenes: seq<Scene>)
      requires Valid()
      modifies this
      ensures Valid() && old(log) <= log && idle == old(idle)
      ensures forall t :: t in old(exited) ==> t in exited && exited[t] == old(exited)[t]
      ensures nextPid >= old(nextPid)
      ensures LifeRun(scenes, ops, answers) && scenes[0] == old(Shown()) && scenes[|ops|] == Shown()
      ensures Placed(scenes[0])
    {
      hide LinksOk, RolesOk, FamilyOk, WaitsOk, HistoryOk, SceneOf, LifeStep, Placed;
      answers, scenes := [], [Shown()];
      ShownPlaced(h, head, count, all, zombies, ring, alls, dead, waiting, exited, log, nextPid, idle);
      for i := 0 to |ops|
        invariant Valid() && old(log) <= log && nextPid >= old(nextPid) && idle == old(idle)
        invariant forall t :: t in old(exited) ==> t in exited && exited[t] == old(exited)[t]
        invariant LifeRun(scenes, ops[..i], answers) && scenes[0] == old(Shown()) && scenes[i] == Shown()
      {
        var answer := Step(ops[i]);
        RunNext(scenes, ops[..i], answers, Shown(), ops[i], answer);
        assert ops[..i] + [ops[i]] == ops[..i + 1];
        answers, scenes := answers + [answer], scenes + [Shown()];
      }
      assert ops[..|ops|] == ops;
    }

    method Step(op: Op) returns (answer: Answer)
      requires Valid()
      modifies this
      ensures Valid() && old(log) <= log && nextPid >= old(nextPid) && idle == old(idle)
      ensures forall t :: t in old(exited) ==> t in exited && exited[t] == old(exited)[t]
      ensures LifeStep(old(Shown()), op, answer, Shown())
    {
      hide LinksOk, RolesOk, FamilyOk, WaitsOk, FirstRunnable, ExitedHeap, FreedHeap, BlockedFor, WithChild;
      hide YieldStep, ForkStep, ExitStep, WaitStep, HistoryOk;
      CurrentShown(h, current, idle, ring, dead);
      if current in waiting {
        var r := WaitRound(waiting[current], false);
        return Waited(r);
      }
      match op
      case Fork(memory) =>
        var child := Fork(memory);
        answer := Born(child);
      case Yield =>
        Yield();
        answer := Done;
      case Wait(pid, options) =>
        var r := Waitpid(pid, options);
        answer := if r.None? then BadCall else Waited(r.value);
      case Exit(code) =>
        if current != INIT && current != idle {
          NotExited(h, current, idle, ring, dead, head, count, all, zombies, alls, nextPid, exited, log);
          Exit(code);
        }
        answer := Done;
    }
  }

  // What the steps on task structs are to the processes.

  lemma CurrentShown(h: Heap, current: nat, idle: nat, ring: seq<nat>, dead: seq<nat>)
    requires RolesOk(h, current, idle, ring, dead)
    ensures ring != [] && ring[0] == current
  {}

  lemma ShownPlaced(h: Heap, head: nat, count: nat, all: Option<nat>, zombies: Option<nat>, ring: seq<nat>,
                    alls: seq<nat>, dead: seq<nat>, waiting: map<nat, int>, exited: map<nat, int>,
                    log: seq<Reap>, nextPid: nat, idle: nat)
    requires LinksOk(h, head, count, all, zombies, ring, alls, dead)
    ensures Placed(SceneOf(h, ring, dead, waiting, exited, log, nextPid, idle))
  {
    StatesShown(h, ring);
  }

  lemma ZombieCodes(h: Heap, nextPid: nat, dead: seq<nat>, exited: map<nat, int>, log: seq<Reap>)
    requires HistoryOk(h, nextPid, dead, exited, log)
    ensures forall z :: z in dead ==> z in h && z in exited && exited[z] == h[z].exitCode
    ensures forall code {:trigger Status(code)} ::
      0 <= Status(code) < 0x1_0000 && Status(code) % 256 == 0 && Status(code) / 256 == code % 256
  {
    forall code ensures 0 <= Status(code) < 0x1_0000 && Status(code) % 256 == 0 && Status(code) / 256 == code % 256 {
      StatusBytes(code);
    }
  }

  /** The ring without its first member, read from p on. */
  ghost predicate LeftFor(ring: seq<nat>, ring': seq<nat>, p: nat)
  {
    exists d :: 1 <= d < |ring| && ring[d] == p && ring' == ring[d..] + ring[1..d]
  }

  lemma FirstOut(h: Heap, ring: seq<nat>, ring': seq<nat>, x: nat)
    requires IsRing(h, ring) && ring[0] == x
    requires exists k :: 0 <= k < |ring| && ring[k] == x && ring' == Without(ring, k)
    ensures ring' == ring[1..]
  {}

  lemma RotatedAway(ring: seq<nat>, ring': seq<nat>, p: nat)
    requires |ring| >= 2 && p in ring[1..]
    requires forall d :: 0 <= d < |ring[1..]| && ring[1..][d] == p ==> ring' == Rotate(ring[1..], d)
    ensures LeftFor(ring, ring', p)
  {
    var d :| 0 <= d < |ring[1..]| && ring[1..][d] == p;
    assert ring[d + 1] == p && ring' == ring[d + 1..] + ring[1..d + 1];
  }

  lemma StatesShown(h: Heap, ring: seq<nat>)
    ensures Procs(h).Keys == h.Keys && forall t :: t in h ==> Procs(h)[t].state == h[t].state
  {}

  lemma SwitchProcs(h: Heap, c: nat, next: nat)
    requires c in h && next in h
    ensures h[c].state == RUNNING && c == next ==> Procs(Switched(h, c, next)) == Procs(h)
    ensures h[c].state == RUNNING && c != next ==>
      Procs(Switched(h, c, next)) ==
      Procs(h)[c := Procs(h)[c].(state := READY)][next := Procs(h)[next].(state := RUNNING)]
    ensures c != next ==>
      Procs(Switched(h[c := h[c].(state := BLOCKED)], c, next)) ==
      Procs(h)[c := Procs(h)[c].(state := BLOCKED)][next := Procs(h)[next].(state := RUNNING)]
  {}

  lemma YieldShown(h: Heap, h': Heap, ring: seq<nat>, ring': seq<nat>, dead: seq<nat>, waiting: map<nat, int>,
                   exited: map<nat, int>, log: seq<Reap>, nextPid: nat, idle: nat)
    requires ring != [] && Distinct(ring) && RolesOk(h, ring[0], idle, ring, dead)
    requires ring' != [] && ring'[0] in h && h' == Switched(h, ring[0], ring'[0])
    requires var d := FirstRunnable(h, ring, 1); ring' == if d < |ring| then Rotate(ring, d) else ring
    ensures YieldStep(SceneOf(h, ring, dead, waiting, exited, log, nextPid, idle),
                      SceneOf(h', ring', dead, waiting, exited, log, nextPid, idle))
  {
    var a := SceneOf(h, ring, dead, waiting, exited, log, nextPid, idle);
    var b := SceneOf(h', ring', dead, waiting, exited, log, nextPid, idle);
    var d := FirstRunnable(h, ring, 1);
    SwitchProcs(h, ring[0], ring'[0]);
    hide Procs, Switched;
    StatesShown(h, ring);
    if d < |ring| {
      assert ring'[0] == ring[d] && ring[d] != ring[0];
      assert TurnTo(a, READY, d, b);
    }
  }

  lemma ForkRefused(h: Heap, ring: seq<nat>, dead: seq<nat>, waiting: map<nat, int>,
                    exited: map<nat, int>, log: seq<Reap>, nextPid: nat, idle: nat, memory: bool)
    requires ring != []
    ensures var a := SceneOf(h, ring, dead, waiting, exited, log, nextPid, idle);
      ring[0] == idle || !memory ==> ForkStep(a, memory, None, a)
  {}

  lemma ForkShown(h: Heap, h': Heap, ring: seq<nat>, ring': seq<nat>, dead: seq<nat>, waiting: map<nat, int>,
                  exited: map<nat, int>, log: seq<Reap>, c: nat, idle: nat)
    requires ring != [] && ring[0] != idle && c !in h && WithChild(h, h', c, ring[0])
    requires ring' == [ring[0], c] + ring[1..]
    ensures ForkStep(SceneOf(h, ring, dead, waiting, exited, log, c, idle), true, Some(c),
                     SceneOf(h', ring', dead, waiting, exited, log, c + 1, idle))
  {
    var a := SceneOf(h, ring, dead, waiting, exited, log, c, idle);
    assert SceneOf(h', ring', dead, waiting, exited, log, c + 1, idle).procs
        == a.procs[c := Proc(READY, Some(ring[0]), 0)];
  }

  lemma ExitShown(h: Heap, h': Heap, x: nat, p: nat, code: int, ring: seq<nat>, ring': seq<nat>, dead: seq<nat>,
                  waiting: map<nat, int>, exited: map<nat, int>, log: seq<Reap>, nextPid: nat, idle: nat)
    requires ring != [] && ring[0] == x && x in h && h[x].parent == Some(p)
    requires ExitedHeap(h, h', x, p, code) && LeftFor(ring, ring', p)
    ensures ExitStep(SceneOf(h, ring, dead, waiting, exited, log, nextPid, idle), code,
                     SceneOf(h', ring', [x] + dead, waiting, exited[x := code], log, nextPid, idle))
  {
    var a := SceneOf(h, ring, dead, waiting, exited, log, nextPid, idle);
    forall t | t in h ensures ExitedTask(h, h', x, p, code, t) {}
  }

  lemma MineShown(h: Heap, ring: seq<nat>, dead: seq<nat>, waiting: map<nat, int>,
                  exited: map<nat, int>, log: seq<Reap>, nextPid: nat, idle: nat, c: nat, pid: int)
    requires forall t :: t in dead ==> t in h
    ensures var a := SceneOf(h, ring, dead, waiting, exited, log, nextPid, idle);
      && (HasDead(a, c, pid) <==> HasZombie(h, dead, c, pid)) && (HasOne(a, c, pid) <==> HasAny(h, c, pid))
      && forall t :: Mine(a, c, pid, t) <==> t in h && h[t].parent == Some(c) && Matches(pid, t)
  {
    var a := SceneOf(h, ring, dead, waiting, exited, log, nextPid, idle);
    if HasZombie(h, dead, c, pid) {
      var z :| z in dead && z in h && h[z].parent == Some(c) && Matches(pid, z);
      var k :| 0 <= k < |dead| && dead[k] == z;
      assert Mine(a, c, pid, a.zombies[k]);
    }
    if HasAny(h, c, pid) {
      var t :| t in h && h[t].parent == Some(c) && Matches(pid, t);
      assert Mine(a, c, pid, t);
    }
  }

  lemma BlockShown(h: Heap, h': Heap, ring: seq<nat>, ring': seq<nat>, dead: seq<nat>, waiting: map<nat, int>,
                   exited: map<nat, int>, log: seq<Reap>, nextPid: nat, idle: nat, pid: int)
    requires ring != [] && Distinct(ring) && RolesOk(h, ring[0], idle, ring, dead)
    requires !HasZombie(h, dead, ring[0], pid) && HasAny(h, ring[0], pid)
    requires ring' != [] && BlockedFor(h, ring, ring[0], h', ring'[0])
    requires ring' == Rotate(ring, FirstRunnable(h, ring, 1))
    ensures WaitStep(SceneOf(h, ring, dead, waiting, exited, log, nextPid, idle), pid, false, Blocks,
                     SceneOf(h', ring', dead, waiting[ring[0] := pid], exited, log, nextPid, idle))
  {
    hide HasZombie, HasAny, HasDead, HasOne;
    var a := SceneOf(h, ring, dead, waiting, exited, log, nextPid, idle);
    var b := SceneOf(h', ring', dead, waiting[ring[0] := pid], exited, log, nextPid, idle);
    var d := FirstRunnable(h, ring, 1);
    MineShown(h, ring, dead, waiting, exited, log, nextPid, idle, ring[0], pid);
    assert ring[d] != ring[0];
    SwitchProcs(h, ring[0], ring[d]);
    hide Procs, Switched;
    StatesShown(h, ring);
    assert TurnTo(a, BLOCKED, d, b);
  }

  lemma LeaveShown(h: Heap, ring: seq<nat>, dead: seq<nat>, waiting: map<nat, int>,
                   exited: map<nat, int>, log: seq<Reap>, nextPid: nat, idle: nat, pid: int, nohang: bool)
    requires ring != [] && RolesOk(h, ring[0], idle, ring, dead) && !HasZombie(h, dead, ring[0], pid)
    ensures var a := SceneOf(h, ring, dead, waiting, exited, log, nextPid, idle);
      var b := SceneOf(h, ring, dead, waiting - {ring[0]}, exited, log, nextPid, idle);
      && (!HasAny(h, ring[0], pid) ==> WaitStep(a, pid, nohang, NoChild, b))
      && (HasAny(h, ring[0], pid) && nohang ==> WaitStep(a, pid, nohang, NotYet, b))
  {
    hide HasZombie, HasAny, HasDead, HasOne;
    MineShown(h, ring, dead, waiting, exited, log, nextPid, idle, ring[0], pid);
  }

  /** z is the first match on the zombie list: no later death matches. */
  ghost predicate LatestMatch(h: Heap, dead: seq<nat>, c: nat, pid: int, z: nat)
  {
    exists k :: 0 <= k < |dead| && dead[k] == z
      && forall j :: 0 <= j < k ==> dead[j] in h && !(h[dead[j]].parent == Some(c) && Matches(pid, dead[j]))
  }

  ghost predicate TakenOut(dead: seq<nat>, z: nat, dead': seq<nat>)
  {
    exists k :: 0 <= k < |dead| && dead[k] == z && dead' == Without(dead, k)
  }

  lemma ReapShown(h: Heap, h': Heap, ring: seq<nat>, dead: seq<nat>, dead': seq<nat>, waiting: map<nat, int>,
                  exited: map<nat, int>, log: seq<Reap>, nextPid: nat, idle: nat, pid: int, nohang: bool, z: nat)
    requires ring != [] && Distinct(dead) && FreedHeap(h, h', z) && (forall t :: t in dead ==> t in h)
    requires z in dead && h[z].parent == Some(ring[0]) && Matches(pid, z)
    requires LatestMatch(h, dead, ring[0], pid, z) && TakenOut(dead, z, dead')
    ensures var status := Status(h[z].exitCode);
      WaitStep(SceneOf(h, ring, dead, waiting, exited, log, nextPid, idle), pid, nohang, Reaped(z, status),
               SceneOf(h', ring, dead', waiting - {ring[0]}, exited, log + [Reap(ring[0], z, status)], nextPid, idle))
  {
    hide HasZombie, HasAny, HasDead, HasOne, Status, Procs, Mine, Without, FreedHeap;
    var status := Status(h[z].exitCode);
    var a := SceneOf(h, ring, dead, waiting, exited, log, nextPid, idle);
    var b := SceneOf(h', ring, dead', waiting - {ring[0]}, exited, log + [Reap(ring[0], z, status)], nextPid, idle);
    MineShown(h, ring, dead, waiting, exited, log, nextPid, idle, ring[0], pid);
    StatusBytes(h[z].exitCode);
    ZombieThere(h, dead, ring[0], pid, z);
    FreedProcs(h, h', z);
    var k :| 0 <= k < |dead| && dead[k] == z
      && forall j :: 0 <= j < k ==> dead[j] in h && !(h[dead[j]].parent == Some(ring[0]) && Matches(pid, dead[j]));
    TakenAt(dead, z, dead', k);
    assert ReapStep(a, pid, k, z, status, b);
  }

  lemma FreedProcs(h: Heap, h': Heap, z: nat)
    requires FreedHeap(h, h', z) && z in h
    ensures Procs(h') == Procs(h) - {z} && z in Procs(h) && Procs(h)[z].code == h[z].exitCode
  {}

  lemma TakenAt(dead: seq<nat>, z: nat, dead': seq<nat>, k: nat)
    requires Distinct(dead) && TakenOut(dead, z, dead') && k < |dead| && dead[k] == z
    ensures dead' == dead[..k] + dead[k + 1..]
  {}

  lemma ZombieThere(h: Heap, dead: seq<nat>, c: nat, pid: int, z: nat)
    requires z in dead && z in h && h[z].parent == Some(c) && Matches(pid, z)
    ensures HasZombie(h, dead, c, pid)
  {}

  const WNOHANG := 1

  lemma NotExited(h: Heap, current: nat, idle: nat, ring: seq<nat>, dead: seq<nat>, head: nat, count: nat,
                  all: Option<nat>, zombies: Option<nat>, alls: seq<nat>, nextPid: nat, exited: map<nat, int>,
                  log: seq<Reap>)
    requires LinksOk(h, head, count, all, zombies, ring, alls, dead) && RolesOk(h, current, idle, ring, dead)
    requires HistoryOk(h, nextPid, dead, exited, log)
    ensures current !in exited
  {}

  lemma ZombieParents(h: Heap, current: nat, idle: nat, ring: seq<nat>, dead: seq<nat>, nextPid: nat)
    requires RolesOk(h, current, idle, ring, dead) && FamilyOk(h, idle, nextPid, ring)
    ensures forall z :: z in dead ==> z in h && h[z].parent.Some? && h[z].parent.value in ring
  {}

  /** A zombie is not current, not in the run queue and nobody's parent: it can be freed. */
  lemma ZombieAlone(h: Heap, current: nat, idle: nat, ring: seq<nat>, dead: seq<nat>, head: nat, count: nat,
                    all: Option<nat>, zombies: Option<nat>, alls: seq<nat>, nextPid: nat, z: nat)
    requires LinksOk(h, head, count, all, zombies, ring, alls, dead) && RolesOk(h, current, idle, ring, dead)
    requires FamilyOk(h, idle, nextPid, ring) && z in dead
    ensures z != current && z !in ring && forall t :: t in h ==> h[t].parent != Some(z)
  {}

  /** No deadlock: while some task is blocked, some task other than idle can run. */
  lemma {:induction false} NoDeadlock(h: Heap, current: nat, idle: nat, nextPid: nat, ring: seq<nat>, dead: seq<nat>,
                                      waiting: map<nat, int>, b: nat)
    requires RolesOk(h, current, idle, ring, dead) && FamilyOk(h, idle, nextPid, ring)
    requires WaitsOk(h, ring, dead, waiting)
    requires b in ring && h[b].state == BLOCKED
    ensures exists t :: t in ring && t in h && t != idle && (h[t].state == READY || h[t].state == RUNNING)
    decreases nextPid - b
  {
    assert WaitOk(h, ring, dead, waiting, b);
    var c :| c in ring && c in h && h[c].parent == Some(b) && Matches(waiting[b], c);
    if h[c].state == BLOCKED {
      NoDeadlock(h, current, idle, nextPid, ring, dead, waiting, c);
    }
  }

  /** Task c is new, ready, and a child of p; of the others only run links changed. */
  ghost predicate WithChild(h: Heap, h': Heap, c: nat, p: nat)
  {
    && h'.Keys == h.Keys + {c} && h'[c].state == READY && h'[c].parent == Some(p) && h'[c].exitCode == 0
    && forall t :: t in h && t != c ==> h'[t] == h[t].(next := h'[t].next)
  }

  lemma ForkReady(h: Heap, current: nat, idle: nat, nextPid: nat, ring: seq<nat>, dead: seq<nat>,
                  exited: map<nat, int>, log: seq<Reap>)
    requires RolesOk(h, current, idle, ring, dead) && FamilyOk(h, idle, nextPid, ring)
    requires HistoryOk(h, nextPid, dead, exited, log)
    ensures nextPid !in h && current in h && ring != [] && ring[0] == current
  {}

  lemma ForkListed(h: Heap, h1: Heap, head: nat, count: nat, all: Option<nat>, zombies: Option<nat>,
                   ring: seq<nat>, alls: seq<nat>, dead: seq<nat>, c: nat)
    requires LinksOk(h, head, count, all, zombies, ring, alls, dead) && c !in h
    requires c in h1 && h1.Keys == h.Keys + {c} && h1[c].allNext == all && forall t :: t in h ==> h1[t] == h[t]
    ensures IsRing(h1, ring) && IsList(h1, ALL, Some(c), [c] + alls) && IsList(h1, ZOMBIE, zombies, dead)
    ensures c !in ring && c !in dead && count == |ring|
  {
    RingFrame(h, h1, ring);
    ListFrame(h, h1, ALL, all, alls);
    ListFrame(h, h1, ZOMBIE, zombies, dead);
    PushList(h1, ALL, all, alls, c);
    assert h1[c := SetLink(h1[c], ALL, all)] == h1;
  }

  lemma ForkLinks(h: Heap, h1: Heap, h': Heap, head: nat, count: nat, count': nat, all: Option<nat>,
                  zombies: Option<nat>,
                  ring: seq<nat>, ring': seq<nat>, alls: seq<nat>, dead: seq<nat>, c: nat)
    requires LinksOk(h, head, count, all, zombies, ring, alls, dead) && c !in h
    requires c in h1 && h1.Keys == h.Keys + {c} && h1[c].zombieNext == None && forall t :: t in h ==> h1[t] == h[t]
    requires IsList(h1, ALL, Some(c), [c] + alls) && IsList(h1, ZOMBIE, zombies, dead) && c !in dead
    requires RunLinksOnly(h1, h') && IsRing(h', ring') && count' == |ring'| && ring' == [ring[0], c] + ring[1..]
    ensures LinksOk(h', head, count', Some(c), zombies, ring', [c] + alls, dead)
    ensures forall t :: t in ring' <==> t in ring || t == c
  {
    ListFrame(h1, h', ALL, Some(c), [c] + alls);
    ListFrame(h1, h', ZOMBIE, zombies, dead);
    assert ring == [ring[0]] + ring[1..];
    assert forall t :: t in ring' <==> t == ring[0] || t == c || t in ring[1..];
  }

  lemma ForkRest(h: Heap, h': Heap, c: nat, current: nat, idle: nat, nextPid: nat, ring: seq<nat>, ring': seq<nat>,
                 dead: seq<nat>, waiting: map<nat, int>, exited: map<nat, int>, log: seq<Reap>)
    requires RolesOk(h, current, idle, ring, dead) && FamilyOk(h, idle, nextPid, ring)
    requires WaitsOk(h, ring, dead, waiting) && HistoryOk(h, nextPid, dead, exited, log)
    requires c == nextPid && c !in h && current != idle && c !in dead
    requires WithChild(h, h', c, current)
    requires (forall t :: t in ring' <==> t in ring || t == c) && ring' != [] && ring'[0] == current
    ensures RolesOk(h', current, idle, ring', dead) && FamilyOk(h', idle, nextPid + 1, ring')
    ensures WaitsOk(h', ring', dead, waiting) && HistoryOk(h', nextPid + 1, dead, exited, log)
  {
    assert current in ring && current in h && idle in h && INIT in h;
    forall b ensures WaitOk(h', ring', dead, waiting, b) { assert WaitOk(h, ring, dead, waiting, b); }
  }

  /** A matching zombie child; a matching child, live or dead. */
  ghost predicate HasZombie(h: Heap, dead: seq<nat>, c: nat, pid: int)
  {
    exists z :: z in dead && z in h && h[z].parent == Some(c) && Matches(pid, z)
  }

  ghost predicate HasAny(h: Heap, c: nat, pid: int)
  {
    exists t :: t in h && h[t].parent == Some(c) && Matches(pid, t)
  }

  /** Task z is gone; the others kept all but their list links. */
  ghost predicate FreedHeap(h: Heap, h': Heap, z: nat)
  {
    && h'.Keys == h.Keys - {z}
    && forall t :: t in h' ==> h'[t] == h[t].(allNext := h'[t].allNext, zombieNext := h'[t].zombieNext)
  }

  lemma FreedKeys(h: Heap, h': Heap, z: nat)
    requires FreedHeap(h, h', z)
    ensures h'.Keys == h.Keys - {z}
  {}

  /** z is on no list any more; links aside, nothing has changed. */
  ghost predicate Unlisted(h: Heap, h': Heap, all: Option<nat>, zombies: Option<nat>, ring: seq<nat>,
                           alls: seq<nat>, alls': seq<nat>, dead: seq<nat>, dead': seq<nat>, z: nat)
  {
    && IsRing(h', ring) && IsList(h', ALL, all, alls') && IsList(h', ZOMBIE, zombies, dead')
    && (forall t :: t in dead' <==> t in dead && t != z)
    && (forall t :: t in alls' <==> t in alls && t != z)
    && ListLinksOnly(h, h')
    && (forall x :: x in h' && x !in dead ==> h'[x].zombieNext == h[x].zombieNext)
  }

  lemma FreedLinks(h: Heap, h': Heap, head: nat, count: nat, all: Option<nat>, zombies: Option<nat>,
                   all': Option<nat>, zombies': Option<nat>, ring: seq<nat>,
                   alls: seq<nat>, alls': seq<nat>, dead: seq<nat>, dead': seq<nat>, z: nat)
    requires LinksOk(h, head, count, all, zombies, ring, alls, dead)
    requires Unlisted(h, h', all', zombies', ring, alls, alls', dead, dead', z) && z in dead
    ensures LinksOk(h' - {z}, head, count, all', zombies', ring, alls', dead')
    ensures FreedHeap(h, h' - {z}, z) && z in h' && h'[z].exitCode == h[z].exitCode
    ensures forall t :: t in ring ==> t !in dead
    ensures forall t :: t in dead' <==> t in dead && t != z
  {
    RingFrame(h', h' - {z}, ring);
    ListFrame(h', h' - {z}, ALL, all', alls');
    ListFrame(h', h' - {z}, ZOMBIE, zombies', dead');
  }

  lemma AllListed(h: Heap, head: nat, count: nat, all: Option<nat>, zombies: Option<nat>,
                  ring: seq<nat>, alls: seq<nat>, dead: seq<nat>)
    requires LinksOk(h, head, count, all, zombies, ring, alls, dead)
    ensures IsList(h, ALL, all, alls) && (forall t :: t in h <==> t in alls)
    ensures forall j :: 0 <= j < |ring| ==> ring[j] in h
    ensures ring != [] && Distinct(dead) && forall t :: t in dead ==> t in h
  {}

  lemma FreedRest(h: Heap, h': Heap, z: nat, current: nat, idle: nat, nextPid: nat, ring: seq<nat>,
                  dead: seq<nat>, dead': seq<nat>, waiting: map<nat, int>, exited: map<nat, int>, log: seq<Reap>)
    requires RolesOk(h, current, idle, ring, dead) && FamilyOk(h, idle, nextPid, ring)
    requires WaitsOk(h, ring, dead, waiting) && HistoryOk(h, nextPid, dead, exited, log)
    requires FreedHeap(h, h', z) && z in dead && (forall t :: t in ring ==> t !in dead)
    requires forall t :: t in dead' <==> t in dead && t != z
    ensures RolesOk(h', current, idle, ring, dead') && FamilyOk(h', idle, nextPid, ring)
    ensures WaitsOk(h', ring, dead', waiting - {current})
    ensures HistoryOk(h', nextPid, dead', exited, log + [Reap(current, z, Status(h[z].exitCode))])
  {
    hide RolesOk, FamilyOk, WaitsOk, HistoryOk, FreedHeap;
    FreedRoles(h, h', z, current, idle, nextPid, ring, dead, dead');
    FreedWaits(h, h', z, current, idle, ring, dead, dead', waiting);
    FreedHistory(h, h', z, current, nextPid, dead, dead', exited, log);
  }

  lemma FreedRoles(h: Heap, h': Heap, z: nat, current: nat, idle: nat, nextPid: nat, ring: seq<nat>,
                   dead: seq<nat>, dead': seq<nat>)
    requires RolesOk(h, current, idle, ring, dead) && FamilyOk(h, idle, nextPid, ring)
    requires FreedHeap(h, h', z) && z in dead && (forall t :: t in ring ==> t !in dead)
    requires forall t :: t in dead' <==> t in dead && t != z
    ensures RolesOk(h', current, idle, ring, dead') && FamilyOk(h', idle, nextPid, ring)
  {}

  lemma FreedWaits(h: Heap, h': Heap, z: nat, current: nat, idle: nat, ring: seq<nat>,
                   dead: seq<nat>, dead': seq<nat>, waiting: map<nat, int>)
    requires RolesOk(h, current, idle, ring, dead) && WaitsOk(h, ring, dead, waiting)
    requires FreedHeap(h, h', z) && z in dead && (forall t :: t in ring ==> t !in dead)
    requires forall t :: t in dead' <==> t in dead && t != z
    ensures WaitsOk(h', ring, dead', waiting - {current})
  {
    forall b ensures WaitOk(h', ring, dead', waiting - {current}, b) {
      assert WaitOk(h, ring, dead, waiting, b);
    }
  }

  lemma FreedHistory(h: Heap, h': Heap, z: nat, current: nat, nextPid: nat,
                     dead: seq<nat>, dead': seq<nat>, exited: map<nat, int>, log: seq<Reap>)
    requires HistoryOk(h, nextPid, dead, exited, log) && FreedHeap(h, h', z) && z in dead
    requires forall t :: t in dead' <==> t in dead && t != z
    ensures HistoryOk(h', nextPid, dead', exited, log + [Reap(current, z, Status(h[z].exitCode))])
  {
    hide Status;
  }

  /** Leaving the wait loop: only the running task is affected. */
  lemma Resume(h: Heap, ring: seq<nat>, dead: seq<nat>, waiting: map<nat, int>, current: nat, idle: nat)
    requires RolesOk(h, current, idle, ring, dead) && WaitsOk(h, ring, dead, waiting)
    ensures WaitsOk(h, ring, dead, waiting - {current})
  {
    forall b ensures WaitOk(h, ring, dead, waiting - {current}, b) { assert WaitOk(h, ring, dead, waiting, b); }
  }

  lemma BlockReady(h: Heap, current: nat, idle: nat, nextPid: nat, head: nat, count: nat, all: Option<nat>,
                   zombies: Option<nat>,
                   ring: seq<nat>, alls: seq<nat>, dead: seq<nat>, waiting: map<nat, int>, pid: int)
    requires LinksOk(h, head, count, all, zombies, ring, alls, dead) && RolesOk(h, current, idle, ring, dead)
    requires FamilyOk(h, idle, nextPid, ring) && WaitsOk(h, ring, dead, waiting)
    requires !HasZombie(h, dead, current, pid) && HasAny(h, current, pid)
    ensures current != idle
    ensures current in h && WaitsOk(h[current := h[current].(state := BLOCKED)], ring, dead, waiting[current := pid])
  {
    var t :| t in h && h[t].parent == Some(current) && Matches(pid, t);
    assert t in ring;
    var h', waiting' := h[current := h[current].(state := BLOCKED)], waiting[current := pid];
    forall b ensures WaitOk(h', ring, dead, waiting', b) {
      assert WaitOk(h, ring, dead, waiting, b);
      if b == current {
        assert h'[t].parent == Some(b);
      }
    }
  }

  lemma BlockedScan(h: Heap, hS: Heap, c: nat, ring: seq<nat>)
    requires ring != [] && ring[0] == c && Distinct(ring) && forall j :: 0 <= j < |ring| ==> ring[j] in h
    requires hS == h[c := h[c].(state := BLOCKED)]
    ensures FirstRunnable(hS, ring, 1) == FirstRunnable(h, ring, 1)
  {}

  ghost predicate ListLinksOnly(h: Heap, h': Heap)
  {
    h'.Keys == h.Keys &&
    forall t :: t in h ==> h'[t] == h[t].(allNext := h'[t].allNext, zombieNext := h'[t].zombieNext)
  }

  /** What schedule may rely on. */
  lemma SchedReady(h: Heap, current: nat, idle: nat, head: nat, count: nat, all: Option<nat>, zombies: Option<nat>,
                   ring: seq<nat>, alls: seq<nat>, dead: seq<nat>)
    requires LinksOk(h, head, count, all, zombies, ring, alls, dead) && RolesOk(h, current, idle, ring, dead)
    ensures ring != [] && ring[0] == current && idle in ring && INIT in ring
    ensures forall t :: t in ring ==> t in h && t !in dead
    ensures Distinct(ring) && forall j :: 0 <= j < |ring| ==> ring[j] in h
    ensures h[current].state == RUNNING && h[INIT].state != DEAD
    ensures h[idle].state == READY || (idle == current && h[idle].state == RUNNING)
  {}

  lemma ExitReady(h: Heap, current: nat, idle: nat, nextPid: nat, ring: seq<nat>, dead: seq<nat>)
    requires RolesOk(h, current, idle, ring, dead) && FamilyOk(h, idle, nextPid, ring)
    requires current != INIT && current != idle
    ensures current in h && h[current].parent.Some? && current < nextPid
    ensures var p := h[current].parent.value; p in ring && p in h && p != current && h[p].state != DEAD
    ensures h[idle].state == READY && |ring| >= 2
  {}

  lemma ExitedSame(h: Heap, hS: Heap, h': Heap, x: nat, p: nat, code: int)
    requires x in h && hS == h[x := h[x].(exitCode := code, state := DEAD)]
    requires ExitedHeap(hS, h', x, p, code)
    ensures ExitedHeap(h, h', x, p, code)
  {
    forall t ensures ExitedTask(h, h', x, p, code, t) { assert ExitedTask(hS, h', x, p, code, t); }
  }

  /** A switch, after the current task c may have blocked, keeps everything but who runs. */
  lemma SwitchRoles(h: Heap, hS: Heap, h': Heap, c: nat, next: nat, idle: nat, ring: seq<nat>, ring': seq<nat>,
                    dead: seq<nat>)
    requires RolesOk(h, c, idle, ring, dead) && c !in dead
    requires hS == h || (c != idle && c in h && hS == h[c := h[c].(state := BLOCKED)])
    requires c in hS && next in hS && next in ring && next !in dead && h' == Switched(hS, c, next)
    requires next == c ==> hS == h
    requires (forall t :: t in ring' <==> t in ring) && ring' != [] && ring'[0] == next
    ensures RolesOk(h', next, idle, ring', dead)
  {}

  lemma SwitchFamily(h: Heap, hS: Heap, h': Heap, c: nat, next: nat, idle: nat, nextPid: nat, ring: seq<nat>,
                     ring': seq<nat>)
    requires FamilyOk(h, idle, nextPid, ring)
    requires hS == h || (c != idle && c in h && hS == h[c := h[c].(state := BLOCKED)])
    requires c in hS && next in hS && h' == Switched(hS, c, next) && (forall t :: t in ring' <==> t in ring)
    ensures FamilyOk(h', idle, nextPid, ring')
  {}

  lemma SwitchHistory(h: Heap, hS: Heap, h': Heap, c: nat, next: nat, nextPid: nat,
                      dead: seq<nat>, exited: map<nat, int>, log: seq<Reap>)
    requires HistoryOk(h, nextPid, dead, exited, log)
    requires hS == h || (c in h && hS == h[c := h[c].(state := BLOCKED)])
    requires c in hS && next in hS && h' == Switched(hS, c, next)
    ensures HistoryOk(h', nextPid, dead, exited, log)
  {}

  lemma SwitchValid(h: Heap, hS: Heap, h': Heap, c: nat, next: nat, idle: nat, nextPid: nat, ring: seq<nat>,
                    ring': seq<nat>,
                    dead: seq<nat>, exited: map<nat, int>, log: seq<Reap>)
    requires RolesOk(h, c, idle, ring, dead) && FamilyOk(h, idle, nextPid, ring) && c !in dead
    requires HistoryOk(h, nextPid, dead, exited, log)
    requires hS == h || (c != idle && hS == h[c := h[c].(state := BLOCKED)])
    requires next in ring && next !in dead && h' == Switched(hS, c, next) && (next == c ==> hS == h)
    requires (forall t :: t in ring' <==> t in ring) && ring' != [] && ring'[0] == next
    ensures RolesOk(h', next, idle, ring', dead)
    ensures FamilyOk(h', idle, nextPid, ring') && HistoryOk(h', nextPid, dead, exited, log)
  {
    hide RolesOk, FamilyOk, HistoryOk;
    RolesIn(h, c, idle, ring, dead);
    SwitchRoles(h, hS, h', c, next, idle, ring, ring', dead);
    SwitchFamily(h, hS, h', c, next, idle, nextPid, ring, ring');
    SwitchHistory(h, hS, h', c, next, nextPid, dead, exited, log);
  }

  lemma RolesIn(h: Heap, c: nat, idle: nat, ring: seq<nat>, dead: seq<nat>)
    requires RolesOk(h, c, idle, ring, dead)
    ensures c in h && forall t :: t in ring ==> t in h
  {}

  lemma SwitchWaits(hS: Heap, h': Heap, c: nat, next: nat, ring: seq<nat>, ring': seq<nat>,
                    dead: seq<nat>, waiting: map<nat, int>)
    requires c in hS && next in hS && h' == Switched(hS, c, next) && WaitsOk(hS, ring, dead, waiting)
    requires forall t :: t in ring' <==> t in ring
    ensures WaitsOk(h', ring', dead, waiting)
  {
    forall b ensures WaitOk(h', ring', dead, waiting, b) { assert WaitOk(hS, ring, dead, waiting, b); }
  }

  /** The scan cannot miss idle. */
  lemma IdleFound(h: Heap, ring: seq<nat>, idle: nat)
    requires ring != [] && (forall j :: 0 <= j < |ring| ==> ring[j] in h) && Distinct(ring)
    requires idle in ring && Runnable(h[idle])
    ensures FirstRunnable(h, ring, 1) == |ring| ==> idle == ring[0]
    ensures FirstRunnable(h, ring, 1) < |ring| ==> ring[FirstRunnable(h, ring, 1)] != ring[0]
  {}

  lemma DeadParent(h: Heap, head: nat, count: nat, all: Option<nat>, zombies: Option<nat>,
                   ring: seq<nat>, alls: seq<nat>, dead: seq<nat>)
    requires LinksOk(h, head, count, all, zombies, ring, alls, dead)
    ensures forall t :: t in ring ==> t in h
  {}

  /** The blocked task c has made way for the first runnable task behind it. */
  ghost predicate BlockedFor(h: Heap, ring: seq<nat>, c: nat, h': Heap, next: nat)
  {
    && c in h && next in h && next != c && (forall j :: 0 <= j < |ring| ==> ring[j] in h) && |ring| > 1
    && FirstRunnable(h, ring, 1) < |ring| && next == ring[FirstRunnable(h, ring, 1)]
    && h' == Switched(h[c := h[c].(state := BLOCKED)], c, next)
  }

  lemma OnePlace(ring: seq<nat>, d: nat)
    requires Distinct(ring) && d < |ring|
    ensures forall e :: 0 <= e < |ring| && ring[e] == ring[d] ==> e == d
  {}

  /** The state changes of a switch from c to next. */
  function Switched(h: Heap, c: nat, next: nat): Heap
    requires c in h && next in h
  {
    var h1 := if h[c].state == RUNNING then h[c := h[c].(state := READY)] else h;
    h1[next := h1[next].(state := RUNNING)]
  }

  lemma ParentReady(h: Heap, h': Heap, x: nat, p: nat, zombies: Option<nat>)
    requires x in h && h[x].parent == Some(p) && p in h && p != x && INIT in h && h[p].state != DEAD
    requires RetiredBy(h, h', x, zombies)
    ensures p in h' && Runnable(h'[p])
  {
    var hB: Heap :| RunLinksOnly(h, hB) && x in hB && hB[x].parent.Some? && h' == Zombified(hB, x, zombies);
    ZombifiedTask(hB, x, zombies, p);
  }

  lemma ExitAdds(h: Heap, hD: Heap, x: nat, p: nat, zombies: Option<nat>)
    requires x in h && h[x].state == DEAD && h[x].parent == Some(p) && p in h && p != x && x != INIT && INIT in h
    requires exists hC: Heap :: RetiredBy(h, hC, x, zombies) && p in hC && hD == hC[p := hC[p].(state := RUNNING)]
    ensures ExitedHeap(h, hD, x, p, h[x].exitCode)
  {
    var hC: Heap :| RetiredBy(h, hC, x, zombies) && p in hC && hD == hC[p := hC[p].(state := RUNNING)];
    var hB: Heap :| RunLinksOnly(h, hB) && x in hB && hB[x].parent.Some? && hC == Zombified(hB, x, zombies);
    ExitSteps(h, hB, hD, x, p, h[x].exitCode, zombies);
  }

  /** h' is h with some next links changed and then x zombified. */
  ghost predicate RetiredBy(h: Heap, h': Heap, x: nat, zombies: Option<nat>)
  {
    exists hB: Heap :: RunLinksOnly(h, hB) && x in hB && hB[x].parent.Some? && h' == Zombified(hB, x, zombies)
  }

  ghost predicate RunLinksOnly(h: Heap, h': Heap)
  {
    h'.Keys == h.Keys && forall t :: t in h ==> h'[t] == h[t].(next := h'[t].next)
  }

  /** Changes to task fields other than links leave the structures alone. */
  lemma RelinkedOk(h: Heap, h': Heap, head: nat, count: nat, all: Option<nat>, zombies: Option<nat>,
                   ring: seq<nat>, alls: seq<nat>, dead: seq<nat>)
    requires LinksOk(h, head, count, all, zombies, ring, alls, dead) && h'.Keys == h.Keys
    requires forall t :: t in h ==>
      h'[t].next == h[t].next && h'[t].allNext == h[t].allNext && h'[t].zombieNext == h[t].zombieNext
    ensures LinksOk(h', head, count, all, zombies, ring, alls, dead)
  {
    RingFrame(h, h', ring);
    ListFrame(h, h', ALL, all, alls);
    ListFrame(h, h', ZOMBIE, zombies, dead);
  }

  /** Between run queue and zombie list: x is in neither. */
  ghost predicate Limbo(h: Heap, head: nat, count: nat, all: Option<nat>, zombies: Option<nat>,
                        ring: seq<nat>, alls: seq<nat>, dead: seq<nat>, x: nat)
  {
    && IsRing(h, ring) && head in ring && count == |ring|
    && IsList(h, ALL, all, alls) && IsList(h, ZOMBIE, zombies, dead)
    && (forall t :: t in h <==> t in alls)
    && (forall t :: t in h <==> t in ring || t in dead || t == x)
    && (forall t :: t in ring ==> t !in dead && h[t].zombieNext == None)
    && x !in ring && x !in dead && h[x].zombieNext == None
  }

  lemma AfterRemove(h: Heap, h': Heap, head: nat, count: nat, head': nat, count': nat, all: Option<nat>,
                    zombies: Option<nat>,
                    ring: seq<nat>, ring': seq<nat>, alls: seq<nat>, dead: seq<nat>, x: nat)
    requires LinksOk(h, head, count, all, zombies, ring, alls, dead) && x in ring
    requires IsRing(h', ring') && head' in ring' && count' == |ring'|
    requires (forall t :: t in ring' <==> t in ring && t != x) && RunLinksOnly(h, h')
    ensures Limbo(h', head', count', all, zombies, ring', alls, dead, x)
  {
    ListFrame(h, h', ALL, all, alls);
    ListFrame(h, h', ZOMBIE, zombies, dead);
  }

  lemma AfterZombify(h: Heap, h': Heap, head: nat, count: nat, all: Option<nat>, zombies: Option<nat>,
                     ring: seq<nat>, alls: seq<nat>, dead: seq<nat>, x: nat)
    requires Limbo(h, head, count, all, zombies, ring, alls, dead, x)
    requires x in h && h[x].parent.Some? && h[x].parent.value in h && INIT in h
    requires h' == Zombified(h, x, zombies)
    ensures LinksOk(h', head, count, all, Some(x), ring, alls, [x] + dead)
  {
    forall t | t in h ensures t in h' && h'[t].next == h[t].next && h'[t].allNext == h[t].allNext
                      ensures h'[t].zombieNext == if t == x then zombies else h[t].zombieNext {
      ZombifiedTask(h, x, zombies, t);
    }
    ZombifiedTask(h, x, zombies, x);
    RingFrame(h, h', ring);
    ListFrame(h, h', ALL, all, alls);
    PushList(h, ZOMBIE, zombies, dead, x);
    ListFrame(h[x := SetLink(h[x], ZOMBIE, zombies)], h', ZOMBIE, Some(x), [x] + dead);
  }

  function Adopted(t: Task, x: nat): Task
  {
    if t.parent == Some(x) then t.(parent := Some(INIT)) else t
  }

  function Reparented(h: Heap, x: nat): Heap
  {
    map t | t in h :: Adopted(h[t], x)
  }

  function Wake(h: Heap, t: nat): Heap
  {
    if t in h && h[t].state == BLOCKED then h[t := h[t].(state := READY)] else h
  }

  /** What task_zombify leaves behind. */
  function Zombified(h: Heap, x: nat, zombies: Option<nat>): Heap
    requires x in h && h[x].parent.Some?
  {
    var h1 := Wake(Reparented(h, x), INIT);
    var h2 := h1[x := h1[x].(zombieNext := zombies)];
    Wake(h2, h[x].parent.value)
  }

  /** The state a task is in after x has exited in favour of its parent p. */
  function ExitState(t: nat, before: State, x: nat, p: nat): State
  {
    if t == x then DEAD else if t == p then RUNNING
    else if t == INIT && before == BLOCKED then READY else before
  }

  /** What an exit does to task t, links aside. */
  ghost predicate ExitedTask(h: Heap, h': Heap, x: nat, p: nat, code: int, t: nat)
  {
    t in h ==>
      && t in h'
      && h'[t].state == ExitState(t, h[t].state, x, p)
      && h'[t].parent == Adopted(h[t], x).parent
      && h'[t].exitCode == (if t == x then code else h[t].exitCode)
      && h'[t].allNext == h[t].allNext
      && (t != x ==> h'[t].zombieNext == h[t].zombieNext)
  }

  ghost predicate ExitedHeap(h: Heap, h': Heap, x: nat, p: nat, code: int)
  {
    h'.Keys == h.Keys && forall t {:trigger ExitedTask(h, h', x, p, code, t)} :: ExitedTask(h, h', x, p, code, t)
  }

  /** What task_zombify does to task t. */
  lemma ZombifiedTask(h: Heap, x: nat, zombies: Option<nat>, t: nat)
    requires x in h && h[x].parent.Some? && h[x].parent.value in h && INIT in h && t in h
    ensures var h' := Zombified(h, x, zombies); var p := h[x].parent.value;
      && h'.Keys == h.Keys
      && h'[t] == Adopted(h[t], x).(
           state := if h[t].state == BLOCKED && (t == INIT || t == p) then READY else h[t].state,
           zombieNext := if t == x then zombies else h[t].zombieNext)
  {}

  /** The steps of an exit add up. */
  lemma ExitSteps(h: Heap, hB: Heap, hD: Heap, x: nat, p: nat, code: int, zombies: Option<nat>)
    requires x in h && h[x].parent == Some(p) && p in h && p != x && x != INIT && INIT in h
    requires hB.Keys == h.Keys
    requires forall t :: t in h && t != x ==> hB[t] == h[t].(next := hB[t].next)
    requires hB[x] == h[x].(state := DEAD, exitCode := code, next := hB[x].next)
    requires var hC := Zombified(hB, x, zombies); hD == hC[p := hC[p].(state := RUNNING)]
    ensures ExitedHeap(h, hD, x, p, code) && hD[x].zombieNext == zombies
    ensures forall t :: t in h ==> hD[t].next == hB[t].next
  {
    forall t ensures ExitedTask(h, hD, x, p, code, t) && (t in h ==> hD[t].next == hB[t].next) {
      if t in h { ZombifiedTask(hB, x, zombies, t); }
    }
    ZombifiedTask(hB, x, zombies, x);
  }

  lemma ExitRoles(h: Heap, h': Heap, x: nat, p: nat, code: int, idle: nat, nextPid: nat,
                  ring: seq<nat>, ring': seq<nat>, dead: seq<nat>)
    requires RolesOk(h, x, idle, ring, dead) && FamilyOk(h, idle, nextPid, ring)
    requires ExitedHeap(h, h', x, p, code) && h[x].parent == Some(p) && x != INIT && x != idle && x !in dead
    requires (forall t :: t in ring' <==> t in ring && t != x) && ring' != [] && ring'[0] == p
    ensures RolesOk(h', p, idle, ring', [x] + dead)
  {
    forall t | t in ring' ensures t in h' && h'[t].state != DEAD && (h'[t].state == RUNNING <==> t == p) {
      assert ExitedTask(h, h', x, p, code, t);
    }
    forall t | t in [x] + dead ensures t in h' && h'[t].state == DEAD { assert ExitedTask(h, h', x, p, code, t); }
    assert ExitedTask(h, h', x, p, code, idle);
  }

  lemma ExitFamily(h: Heap, h': Heap, x: nat, p: nat, code: int, idle: nat, nextPid: nat,
                   ring: seq<nat>, ring': seq<nat>)
    requires FamilyOk(h, idle, nextPid, ring) && INIT in ring && idle != INIT
    requires x in h && x != INIT && x != idle
    requires ExitedHeap(h, h', x, p, code)
    requires forall t :: t in ring' <==> t in ring && t != x
    ensures FamilyOk(h', idle, nextPid, ring')
  {
    forall t | t in h' ensures
      && 0 < t < nextPid
      && (h'[t].parent == None <==> t == INIT || t == idle)
      && (h'[t].parent.Some? ==> h'[t].parent.value in ring' && h'[t].parent.value < t && h'[t].parent.value != idle)
    {
      assert ExitedTask(h, h', x, p, code, t);
    }
  }

  lemma ExitWait(h: Heap, h': Heap, x: nat, p: nat, code: int,
                 ring: seq<nat>, ring': seq<nat>, dead: seq<nat>, waiting: map<nat, int>, b: nat)
    requires WaitOk(h, ring, dead, waiting, b) && ExitedHeap(h, h', x, p, code)
    requires x in h && h[x].parent == Some(p) && b != x
    requires forall t :: t in ring' <==> t in ring && t != x
    requires forall t :: t in ring || t in dead ==> t in h
    ensures WaitOk(h', ring', [x] + dead, waiting, b)
  {
    assert ExitedTask(h, h', x, p, code, b);
    if b in ring' && b in h' && h'[b].state == BLOCKED {
      var c :| c in ring && c in h && h[c].parent == Some(b) && Matches(waiting[b], c);
      assert ExitedTask(h, h', x, p, code, c);
      assert c in ring' && h'[c].parent == Some(b);
      forall z | z in [x] + dead && z in h' ensures !(h'[z].parent == Some(b) && Matches(waiting[b], z)) {
        assert ExitedTask(h, h', x, p, code, z);
      }
    }
  }

  lemma ExitWaits(h: Heap, h': Heap, x: nat, p: nat, code: int, idle: nat,
                  ring: seq<nat>, ring': seq<nat>, dead: seq<nat>, waiting: map<nat, int>)
    requires RolesOk(h, x, idle, ring, dead) && WaitsOk(h, ring, dead, waiting) && ExitedHeap(h, h', x, p, code)
    requires x in h && h[x].parent == Some(p)
    requires forall t :: t in ring' <==> t in ring && t != x
    ensures WaitsOk(h', ring', [x] + dead, waiting)
  {
    forall b ensures WaitOk(h', ring', [x] + dead, waiting, b) {
      if b != x {
        assert WaitOk(h, ring, dead, waiting, b);
        ExitWait(h, h', x, p, code, ring, ring', dead, waiting, b);
      }
    }
  }

  lemma ExitHistory(h: Heap, h': Heap, x: nat, p: nat, code: int, nextPid: nat,
                    dead: seq<nat>, exited: map<nat, int>, log: seq<Reap>)
    requires HistoryOk(h, nextPid, dead, exited, log) && ExitedHeap(h, h', x, p, code)
    requires x in h && x !in dead && x < nextPid
    ensures HistoryOk(h', nextPid, [x] + dead, exited[x := code], log)
  {
    forall t | t in [x] + dead
      ensures t in h' && t in exited[x := code] && exited[x := code][t] == h'[t].exitCode {
      assert ExitedTask(h, h', x, p, code, t);
    }
  }

  lemma ExitValid(h: Heap, h': Heap, x: nat, p: nat, code: int, idle: nat, nextPid: nat, ring: seq<nat>,
                  ring': seq<nat>,
                  dead: seq<nat>, waiting: map<nat, int>, exited: map<nat, int>, log: seq<Reap>)
    requires RolesOk(h, x, idle, ring, dead) && FamilyOk(h, idle, nextPid, ring) && WaitsOk(h, ring, dead, waiting)
    requires HistoryOk(h, nextPid, dead, exited, log) && ExitedHeap(h, h', x, p, code)
    requires x in h && h[x].parent == Some(p) && x != INIT && x != idle && x !in dead
    requires (forall t :: t in ring' <==> t in ring && t != x) && ring' != [] && ring'[0] == p
    ensures RolesOk(h', p, idle, ring', [x] + dead) && FamilyOk(h', idle, nextPid, ring')
    ensures WaitsOk(h', ring', [x] + dead, waiting) && HistoryOk(h', nextPid, [x] + dead, exited[x := code], log)
  {
    hide WaitsOk, HistoryOk, ExitedHeap;
    ExitRoles(h, h', x, p, code, idle, nextPid, ring, ring', dead);
    ExitFamily(h, h', x, p, code, idle, nextPid, ring, ring');
    ExitHistory(h, h', x, p, code, nextPid, dead, exited, log);
    ExitWaits(h, h', x, p, code, idle, ring, ring', dead, waiting);
  }

  /** The position of the first runnable task at or after i, or the length. */
  ghost function FirstRunnable(h: Heap, s: seq<nat>, i: nat): (d: nat)
    requires i <= |s| && forall j :: 0 <= j < |s| ==> s[j] in h
    ensures i <= d <= |s| && (d < |s| ==> h[s[d]].state == READY || h[s[d]].state == RUNNING)
    ensures forall j :: i <= j < d ==> h[s[j]].state == BLOCKED || h[s[j]].state == DEAD
    decreases |s| - i
  {
    if i == |s| || Runnable(h[s[i]]) then i else FirstRunnable(h, s, i + 1)
  }
}
