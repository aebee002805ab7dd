/** Processes: tasks with address spaces of their own. Fork gives the child a
    space, reaping takes it away, and a switch of tasks is a switch of spaces. */
module Process {
  import opened Wrappers
  import opened Paging
  import opened Pmm
  import opened Tables
  import opened Views
  import opened Walk
  import opened Share
  import opened Vmm
  import Tasks
  import opened Life
  import opened Sched
  import Boot
  import UserMemory
  import EagerFork
  import Elf
  import Exec
  import ExecStack
  import Words

  /** Every task but idle has a space of its own; idle has the boot space. */
  ghost predicate SpacesMatch(tasks: set<nat>, idle: nat, boot: nat, space: map<nat, nat>, spaces: set<nat>)
  {
    && space.Keys == tasks && idle in space && space[idle] == boot
    && (forall t :: t in space ==> space[t] in spaces)
    && (forall t, u :: t in space && u in space && t != u ==> space[t] != space[u])
    && (forall r :: r in spaces ==> exists t :: t in space && space[t] == r)
  }

  /** What there is to see of the processes: the space of each, the pages, the space the
      processor is in, and the scene of their lives. */
  datatype View = View(space: map<nat, nat>, pages: map<Path, PageView>, cr3: nat, scene: Scene)

  /** The process that runs. */
  ghost function Caller(a: View): nat
  {
    if a.scene.queue == [] then 0 else a.scene.queue[0]
  }

  ghost predicate Waits(a: View)
  {
    Caller(a) in a.scene.waits
  }

  /** Processes and spaces belong together, and the running process is in its own. */
  ghost predicate Settled(a: View)
  {
    && a.scene.queue != [] && a.space.Keys == a.scene.procs.Keys
    && Caller(a) in a.space && a.cr3 == a.space[Caller(a)]
  }

  /** What a process asks for. */
  datatype Call =
    | Task(op: Op)
    | Execve(f: Elf.File, argv: seq<ExecStack.Text>, envp: seq<ExecStack.Text>)
    | Map(virt: nat, write: bool, nx: bool)
    | Unmap(virt: nat)
    | Store(addr: nat, value: byte)
    | CopyOut(addr: nat, bytes: seq<byte>)

  datatype Reply = Lived(answer: Answer) | Executed(outcome: Exec.Outcome) | Accessed(out: EagerFork.Outcome)

  /** The conditions on images and argument texts. */
  ghost predicate Posed(call: Call)
  {
    call.Execve? ==>
      && (Elf.HeaderOk(call.f) ==> Elf.Separate(call.f) && Exec.StackClear(call.f))
      && ExecStack.TextsOk(call.argv) && ExecStack.TextsOk(call.envp)
  }

  /** The pages of space r are the same in both. */
  ghost predicate SameIn(m: map<Path, PageView>, m': map<Path, PageView>, r: nat)
  {
    forall l :: SpaceOf(l) == Private(r) ==> (l in m' <==> l in m) && (l in m ==> m'[l] == m[l])
  }

  ghost predicate CopyIn(m: map<Path, PageView>, m': map<Path, PageView>, src: nat, d: nat)
  {
    forall l :: SpaceOf(l) == Private(d) ==>
      (l in m' <==> Move(l, src) in m) && (l in m' ==> m'[l] == m[Move(l, src)])
  }

  /** Isolation: of the tasks that stay, all but the caller see what they saw; a new
      task sees a copy of the caller's memory; of a task that is gone nothing is left. */
  ghost predicate Isolated(a: View, b: View)
  {
    && (forall t :: t in a.space && t in b.space && t != Caller(a) ==>
          b.space[t] == a.space[t] && SameIn(a.pages, b.pages, a.space[t]))
    && (forall t :: t in b.space && t !in a.space ==>
          Caller(a) in a.space && CopyIn(a.pages, b.pages, a.space[Caller(a)], b.space[t]))
    && (forall t :: t in a.space && t !in b.space ==> forall l :: l in b.pages ==> SpaceOf(l) != Private(a.space[t]))
  }

  /** The new program as the caller sees it: its image, its entry and its break, and a
      stack page from which the startup code reads the arguments. */
  ghost predicate ImageSeen(a: View, b: View, call: Call, outcome: Exec.Outcome, stack: Page)
    requires call.Execve? && Caller(a) in a.space && Caller(a) in b.space
  {
    && outcome.Started? && Elf.Accepted(call.f) && outcome.rsp % 16 == 0
    && outcome.entry == Words.Eight(call.f, 24) && Elf.IsBreak(call.f, outcome.brk)
    && EagerFork.DroppedPages(Exec.ImagePages(a.pages, b.space[Caller(a)], call.f, stack), b.pages, a.space[Caller(a)])
    && ExecStack.Crt0(stack, outcome.rsp) == Some(ExecStack.Args(call.argv, call.envp))
  }

  function MemoryOp(call: Call, r: nat): EagerFork.Op
    requires !call.Task? && !call.Execve?
  {
    match call
    case Map(virt, write, nx) => EagerFork.Map(r, virt, write, nx)
    case Unmap(virt) => EagerFork.Unmap(r, virt)
    case Store(addr, value) => EagerFork.Store(addr, value)
    case CopyOut(addr, bytes) => EagerFork.CopyOut(addr, bytes)
  }

  /** What becomes of the caller's own memory. */
  ghost predicate OwnStep(a: View, boot: nat, call: Call, reply: Reply, b: View)
  {
    && Caller(a) in a.space && Caller(a) in b.space
    && var r := a.space[Caller(a)];
    if Waits(a) || call.Task? then b.space[Caller(a)] == r && SameIn(a.pages, b.pages, r)
    else if call.Execve? then
      && reply.Executed?
      && if reply.outcome.Started? then exists stack: Page :: ImageSeen(a, b, call, reply.outcome, stack)
         else b.space == a.space && b.pages == a.pages
    else
      && reply.Accessed? && b.space == a.space
      && EagerFork.SpecStep(EagerFork.Spec(a.space.Values, a.pages, r, boot), MemoryOp(call, r), reply.out,
                            EagerFork.Spec(a.space.Values, b.pages, r, boot))
  }

  ghost predicate MemoryStep(a: View, boot: nat, call: Call, reply: Reply, b: View)
  {
    Isolated(a, b) && OwnStep(a, boot, call, reply, b)
  }

  /** There is memory for a fork: the heap has it, and so have the frame allocator and the counts. */
  ghost predicate MayFork(a: View, s: Sys, memory: bool)
  {
    memory && |a.space| < REFCOUNT_MAX && |Needed(s, a.cr3)| <= |s.free|
  }

  /** What the call is in the life of the processes. */
  ghost function LifeOp(a: View, s: Sys, call: Call): Op
    requires call.Task?
  {
    match call.op
    case Fork(memory) => Op.Fork(MayFork(a, s, memory))
    case op => op
  }

  /** The scene moves on by the calls that are about tasks, and by no other. */
  ghost predicate SceneStep(a: View, s: Sys, call: Call, reply: Reply, b: View)
  {
    if Waits(a) || call.Task? then
      reply.Lived? && LifeStep(a.scene, if call.Task? then LifeOp(a, s, call) else Op.Yield, reply.answer, b.scene)
    else b.scene == a.scene
  }

  /** A call falls short only where its caller may not make it or frames are wanting. */
  ghost predicate Fair(a: View, s: Sys, call: Call, reply: Reply, s': Sys)
  {
    if Waits(a) then true
    else
      match call
      case Task(_) => true
      case Execve(f, argv, envp) => reply == Executed(Exec.Failed) ==>
        Caller(a) == a.scene.idle || !Elf.Accepted(f) || |s.free| <= Exec.FramesFor(f) || !Exec.ArgsFit(argv, envp)
      case _ => reply.Accessed? && EagerFork.Honest(s, s', a.cr3, MemoryOp(call, a.cr3), reply.out)
  }

  ghost predicate CallStep(a: View, s: Sys, boot: nat, call: Call, reply: Reply, b: View, s': Sys)
  {
    && Settled(a) && Settled(b)
    && MemoryStep(a, boot, call, reply, b) && SceneStep(a, s, call, reply, b) && Fair(a, s, call, reply, s')
  }

  /** What there is to see, and the machine that shows it. */
  datatype Moment = Moment(view: View, sys: Sys)

  ghost predicate RunStep(m: Moment, boot: nat, call: Call, reply: Reply, m': Moment)
  {
    && m.view.pages == Pages(m.sys) && m'.view.pages == Pages(m'.sys) && Inv(m.sys, None) && Inv(m'.sys, None)
    && CallStep(m.view, m.sys, boot, call, reply, m'.view, m'.sys)
  }

  ghost predicate IsRun(ms: seq<Moment>, boot: nat, calls: seq<Call>, replies: seq<Reply>)
  {
    && |replies| == |calls| && |ms| == |calls| + 1
    && forall i :: 0 <= i < |calls| ==> RunStep(ms[i], boot, calls[i], replies[i], ms[i + 1])
  }

  class Machine {
    const k: Kernel
    const v: PageTables
    const boot: nat
    /** The cr3 field of each task. */
    var space: map<nat, nat>

    ghost predicate Valid()
      reads this, k, v, v.pmm, v.pmm.bitmap, v.pmm.refcount
    {
      && k.Valid() && v.Valid(None) && v.SpacesOk()
      && SpacesMatch(k.h.Keys, k.idle, boot, space, v.spaces)
      && k.current in space && v.cur == space[k.current]
    }

    ghost function Seen(): View
      reads this, k, v
    {
      View(space, Pages(v.sys), v.cur, k.Shown())
    }

    constructor (k: Kernel, v: PageTables, boot: nat, space: map<nat, nat>)
      requires k.Valid() && v.Valid(None) && v.SpacesOk()
      requires SpacesMatch(k.h.Keys, k.idle, boot, space, v.spaces) && k.current in space && v.cur == space[k.current]
      ensures Valid() && this.k == k && this.v == v && this.boot == boot && this.space == space
    {
      hide LinksOk, RolesOk, FamilyOk, WaitsOk, HistoryOk, Inv, Sound, SpacesIn, SpacesMatch;
      this.k, this.v, this.boot, this.space := k, v, boot, space;
    }

    /** The last part of schedule: to the space of whichever task runs now. */
    method SwitchSpace()
      requires k.Valid() && v.Valid(None) && v.SpacesOk() && SpacesMatch(k.h.Keys, k.idle, boot, space, v.spaces)
      requires k.current in space
      modifies v`cur
      ensures Valid()
    {
      hide LinksOk, RolesOk, FamilyOk, WaitsOk, HistoryOk, Inv, Sound, SpacesIn, SpacesMatch;
      MatchIn(k.h.Keys, k.idle, boot, space, v.spaces);
      Exec.SpacesSwitch(v.sys, v.spaces, v.cur, space[k.current]);
      if v.cur != space[k.current] {
        v.cur := space[k.current];
      }
    }

    method Yield()
      requires Valid()
      modifies k, v`cur
      ensures Valid() && v.spaces == old(v.spaces) && v.sys == old(v.sys) && space == old(space)
      ensures k.idle == old(k.idle) && YieldStep(old(k.Shown()), k.Shown())
    {
      hide LinksOk, RolesOk, FamilyOk, WaitsOk, HistoryOk, Inv, Sound, SpacesIn, SpacesMatch, FirstRunnable;
      hide YieldStep, SceneOf, Switched;
      CurrentThere(k);
      k.Yield();
      CurrentThere(k);
      MatchIn(k.h.Keys, k.idle, boot, space, v.spaces);
      SwitchSpace();
    }

    /** fork: the child has a copy of every page of its parent, in a space of its own. */
    method Fork(memory: bool) returns (child: Option<nat>)
      requires Valid() && k.current !in k.waiting && |v.spaces| < REFCOUNT_MAX
      modifies this`space, k, v`mem, v`sys, v`spaces, v.pmm, v.pmm.bitmap, v.pmm.refcount
      ensures Valid() && k.idle == old(k.idle) && k.current == old(k.current)
      ensures child.None? <==>
        k.current == k.idle || !memory || |old(v.sys.free)| < |Needed(old(v.sys), old(v.cur))|
      ensures child.None? ==>
        && space == old(space) && v.spaces == old(v.spaces) && Maps(v.sys) == Maps(old(v.sys))
        && v.sys.free == old(v.sys.free) && v.sys.rc == old(v.sys.rc)
      ensures child.Some? ==>
        && child.value !in old(space) && child.value in space && space == old(space)[child.value := space[child.value]]
        && space[child.value] !in old(v.spaces)
        && EagerFork.CopiedPages(Pages(old(v.sys)), Pages(v.sys), v.cur, space[child.value])
      ensures v.cur == old(v.cur)
      ensures ForkStep(old(k.Shown()), memory && |Needed(old(v.sys), old(v.cur))| <= |old(v.sys.free)|,
                       child, k.Shown())
    {
      hide LinksOk, RolesOk, FamilyOk, WaitsOk, HistoryOk, Inv, Kept, Sound, SpacesIn, SpacesMatch, Forked;
      hide SameTables, Maps, Pages, WithChild, Needed, SceneOf, ForkStep;
      ghost var tasks, spaces := k.h.Keys, v.spaces;
      CurrentThere(k);
      MatchIn(tasks, k.idle, boot, space, spaces);
      NoFork(k, memory && |Needed(v.sys, v.cur)| <= |v.sys.free|);
      if k.current == k.idle || !memory {
        return None;
      }
      ghost var s0, parent := v.sys, v.cur;
      var r := v.CloneUserAddressSpace(v.cur);
      if r.None? {
        return None;
      }
      EagerFork.ForkedPages(s0, v.sys, parent, r.value);
      ghost var h0 := k.h;
      child := k.Fork(true);
      ChildKeys(h0, k.h, child.value, k.current);
      MatchMore(tasks, k.idle, boot, space, spaces, child.value, r.value);
      space := space[child.value := r.value];
    }

    /** The current task exits; its space stays until it is reaped. */
    method Exit(code: int)
      requires Valid() && k.current != INIT && k.current != k.idle && k.current !in k.waiting
      modifies k, v`cur
      ensures Valid() && v.spaces == old(v.spaces) && v.sys == old(v.sys) && space == old(space)
      ensures k.idle == old(k.idle) && ExitStep(old(k.Shown()), code, k.Shown())
      ensures ghost var x := old(k.current);
        && old(k.h)[x].parent == Some(k.current) && x in k.dead && k.exited == old(k.exited)[x := code]
        && k.current in space && v.cur == space[k.current]
    {
      hide LinksOk, RolesOk, FamilyOk, WaitsOk, HistoryOk, Inv, Sound, SpacesIn, SpacesMatch, ExitedHeap;
      hide SceneOf, ExitStep;
      CurrentThere(k);
      MatchIn(k.h.Keys, k.idle, boot, space, v.spaces);
      k.Exit(code);
      CurrentThere(k);
      SwitchSpace();
    }

    /** One round of waitpid. A child that is reaped loses its space, which is
        never the current one; a caller that blocks gives way. */
    method WaitRound(pid: int, nohang: bool) returns (r: WaitResult)
      requires Valid()
      modifies this`space, k, v`cur, v`mem, v`sys, v`spaces, v.pmm, v.pmm.bitmap, v.pmm.refcount
      ensures Valid() && k.idle == old(k.idle) && WaitStep(old(k.Shown()), pid, nohang, r, k.Shown())
      ensures r.Reaped? <==> HasZombie(old(k.h), old(k.dead), old(k.current), pid)
      ensures r == NoChild <==> !HasAny(old(k.h), old(k.current), pid)
      ensures k.log == old(k.log) + if r.Reaped? then [Reap(k.current, r.pid, r.status)] else []
      ensures !r.Reaped? ==> v.spaces == old(v.spaces) && v.sys == old(v.sys) && space == old(space)
      ensures r.Reaped? ==>
        && k.current == old(k.current) != r.pid
        && r.pid in old(space) && space == old(space) - {r.pid} && v.spaces == old(v.spaces) - {old(space)[r.pid]}
        && EagerFork.DroppedPages(Pages(old(v.sys)), Pages(v.sys), old(space)[r.pid])
    {
      hide LinksOk, RolesOk, FamilyOk, WaitsOk, HistoryOk, Inv, Sound, SpacesIn, SpacesMatch, FreedHeap;
      hide BlockedFor, Pages, SpaceRemoved, HasZombie, HasAny, SceneOf, WaitStep, Status, Matches;
      ghost var tasks := k.h.Keys;
      CurrentThere(k);
      MatchIn(tasks, k.idle, boot, space, v.spaces);
      r := k.WaitRound(pid, nohang);
      CurrentThere(k);
      if r.Reaped? {
        MatchLess(tasks, k.idle, boot, space, v.spaces, r.pid, k.current);
        v.DestroyUserAddressSpace(space[r.pid]);
        EagerFork.RemovedPages(old(v.sys), v.sys, space[r.pid]);
        space := space - {r.pid};
      } else {
        assert k.h.Keys == tasks;
        SwitchSpace();
      }
    }

    /** execve: the current process goes on in a new space, the old one is gone. */
    method Execve(f: Elf.File, argv: seq<ExecStack.Text>, envp: seq<ExecStack.Text>) returns (r: Exec.Outcome)
      requires Valid() && k.current != k.idle
      requires Elf.HeaderOk(f) ==> Elf.Separate(f) && Exec.StackClear(f)
      requires ExecStack.TextsOk(argv) && ExecStack.TextsOk(envp)
      modifies this`space, v`cur, v`mem, v`sys, v`spaces, v.pmm, v.pmm.bitmap, v.pmm.refcount
      ensures Valid()
      ensures r == Exec.Failed ==> space == old(space) && v.spaces == old(v.spaces) && Exec.NoTrace(old(v.sys), v.sys)
      ensures r == Exec.Failed ==>
        !Elf.Accepted(f) || |old(v.sys.free)| <= Exec.FramesFor(f) || !Exec.ArgsFit(argv, envp)
      ensures r.Started? ==>
        && v.cur !in old(v.spaces) && space == old(space)[k.current := v.cur]
        && v.spaces == old(v.spaces) - {old(v.cur)} + {v.cur}
        && Caller(old(Seen())) == k.current
        && exists stack: Page :: ImageSeen(old(Seen()), Seen(), Call.Execve(f, argv, envp), r, stack)
      ensures k.Shown() == old(k.Shown()) && v.cur == space[k.current]
    {
      hide LinksOk, RolesOk, FamilyOk, WaitsOk, HistoryOk, Inv, Sound, SpacesIn, SpacesMatch, Pages;
      hide Exec.ImagePages, Exec.NoTrace, Elf.Accepted, EagerFork.DroppedPages, ExecStack.Crt0, Elf.IsBreak, Procs;
      ghost var spaces, pages := v.spaces, Pages(v.sys);
      CurrentThere(k);
      MatchIn(k.h.Keys, k.idle, boot, space, spaces);
      r := Exec.Execve(v, f, argv, envp);
      if r.Started? {
        MatchSwap(k.h.Keys, k.idle, boot, space, spaces, k.current, v.cur);
        space := space[k.current := v.cur];
        ghost var stack: Page :|
          EagerFork.DroppedPages(Exec.ImagePages(pages, v.cur, f, stack), Pages(v.sys), old(v.cur))
          && ExecStack.Crt0(stack, r.rsp) == Some(ExecStack.Args(argv, envp)) && r.rsp % 16 == 0;
        assert ImageSeen(old(Seen()), Seen(), Call.Execve(f, argv, envp), r, stack);
      }
    }

    /** A step of the caller on its own memory. */
    method Access(call: Call) returns (reply: Reply)
      requires Valid() && !call.Task? && !call.Execve? && k.current !in k.waiting
      modifies v`mem, v`sys, v`spaces, v`cur, v.pmm, v.pmm.bitmap, v.pmm.refcount
      ensures Valid() && CallStep(old(Seen()), old(v.sys), boot, call, reply, Seen(), v.sys)
    {
      hide LinksOk, RolesOk, FamilyOk, WaitsOk, HistoryOk, Inv, Sound, SpacesIn, SpacesMatch, Pages, Procs;
      hide EagerFork.SpecStep, EagerFork.Steady, EagerFork.Honest, MemoryStep;
      ghost var a, s := Seen(), EagerFork.Shown(v, boot);
      CurrentThere(k);
      MatchIn(k.h.Keys, k.idle, boot, space, v.spaces);
      MatchValues(k.h.Keys, k.idle, boot, space, v.spaces);
      var out := EagerFork.Perform(v, MemoryOp(call, v.cur), boot);
      reply := Accessed(out);
      AccessStep(a, s, call, out, EagerFork.Shown(v, boot), k.h.Keys, k.idle);
    }

    /** The current process asks for a new program. */
    method Replace(call: Call) returns (reply: Reply)
      requires Valid() && Posed(call) && call.Execve? && k.current !in k.waiting
      modifies this`space, v`cur, v`mem, v`sys, v`spaces, v.pmm, v.pmm.bitmap, v.pmm.refcount
      ensures Valid() && CallStep(old(Seen()), old(v.sys), boot, call, reply, Seen(), v.sys)
    {
      hide LinksOk, RolesOk, FamilyOk, WaitsOk, HistoryOk, Inv, Sound, SpacesIn, SpacesMatch, Pages, Maps, Procs;
      hide Elf.Accepted, Elf.Separate, Exec.StackClear, Elf.HeaderOk, MemoryStep, ImageSeen;
      ghost var a, s := Seen(), v.sys;
      CurrentThere(k);
      MatchIn(k.h.Keys, k.idle, boot, space, v.spaces);
      SameStep(a, boot, call, Executed(Exec.Failed), a);
      if k.current == k.idle {
        return Executed(Exec.Failed);
      }
      ghost var spaces := v.spaces;
      var r := Execve(call.f, call.argv, call.envp);
      reply := Executed(r);
      if r == Exec.Failed {
        TracelessPages(s, v.sys);
        SameStep(a, boot, call, reply, Seen());
      } else {
        ghost var stack: Page :| ImageSeen(a, Seen(), call, r, stack);
        ReplaceStep(a, boot, call, r, Seen(), k.h.Keys, k.idle, spaces, stack);
      }
    }

    /** A step in the life of tasks: nobody's memory changes but for a copy that appears
        and a space that goes. */
    method Live(call: Call) returns (reply: Reply)
      requires Valid() && (call.Task? || k.current in k.waiting)
      modifies this`space, k, v`cur, v`mem, v`sys, v`spaces, v.pmm, v.pmm.bitmap, v.pmm.refcount
      ensures Valid() && CallStep(old(Seen()), old(v.sys), boot, call, reply, Seen(), v.sys)
    {
      hide LinksOk, RolesOk, FamilyOk, WaitsOk, HistoryOk, Inv, Sound, SpacesIn, SpacesMatch, Pages, CallStep;
      if k.current in k.waiting {
        reply := LiveWait(call, k.waiting[k.current], false);
        return;
      }
      match call.op
      case Fork(memory) => reply := LiveFork(memory);
      case Yield => reply := LiveYield();
      case Wait(pid, options) =>
        if pid == 0 || pid < -1 || !(options == 0 || options == WNOHANG) {
          reply := LiveBad(pid, options);
        } else {
          reply := LiveWait(call, pid, options == WNOHANG);
        }
      case Exit(code) => reply := LiveExit(code);
    }

    /** A look of waitpid, the first or a later one. */
    method LiveWait(call: Call, pid: int, nohang: bool) returns (reply: Reply)
      requires Valid()
      requires if k.current in k.waiting then pid == k.waiting[k.current] && !nohang
               else call == Task(Op.Wait(pid, if nohang then 1 else 0)) && pid != 0 && pid >= -1
      modifies this`space, k, v`cur, v`mem, v`sys, v`spaces, v.pmm, v.pmm.bitmap, v.pmm.refcount
      ensures Valid() && CallStep(old(Seen()), old(v.sys), boot, call, reply, Seen(), v.sys)
    {
      hide LinksOk, RolesOk, FamilyOk, WaitsOk, HistoryOk, Inv, Sound, SpacesIn, SpacesMatch, Pages, Maps, Procs;
      hide MemoryStep, Needed, YieldStep, ForkStep, ExitStep, WaitStep, HasZombie, HasAny;
      ghost var a, tasks, idle, spaces := Seen(), k.h.Keys, k.idle, v.spaces;
      CurrentThere(k);
      MatchIn(tasks, idle, boot, space, spaces);
      var r := WaitRound(pid, nohang);
      CurrentThere(k);
      MatchIn(k.h.Keys, k.idle, boot, space, v.spaces);
      reply := Lived(Waited(r));
      ReapStepSeen(a, boot, call, reply, Seen(), tasks, idle, spaces, r);
    }

    method LiveBad(pid: int, options: int) returns (reply: Reply)
      requires Valid() && k.current !in k.waiting
      requires pid == 0 || pid < -1 || !(options == 0 || options == 1)
      ensures CallStep(Seen(), v.sys, boot, Task(Op.Wait(pid, options)), reply, Seen(), v.sys)
    {
      hide LinksOk, RolesOk, FamilyOk, WaitsOk, HistoryOk, Inv, Sound, SpacesIn, SpacesMatch, Pages, Maps, Procs;
      hide MemoryStep, WaitStep;
      CurrentThere(k);
      MatchIn(k.h.Keys, k.idle, boot, space, v.spaces);
      reply := Lived(BadCall);
      SameStep(Seen(), boot, Task(Op.Wait(pid, options)), reply, Seen());
    }

    method LiveYield() returns (reply: Reply)
      requires Valid() && k.current !in k.waiting
      modifies k, v`cur
      ensures Valid() && CallStep(old(Seen()), old(v.sys), boot, Task(Op.Yield), reply, Seen(), v.sys)
    {
      hide LinksOk, RolesOk, FamilyOk, WaitsOk, HistoryOk, Inv, Sound, SpacesIn, SpacesMatch, Pages, Maps, Procs;
      hide MemoryStep, YieldStep;
      ghost var a := Seen();
      CurrentThere(k);
      MatchIn(k.h.Keys, k.idle, boot, space, v.spaces);
      Yield();
      reply := Lived(Done);
      CurrentThere(k);
      MatchIn(k.h.Keys, k.idle, boot, space, v.spaces);
      SameStep(a, boot, Task(Op.Yield), reply, Seen());
    }

    method LiveExit(code: int) returns (reply: Reply)
      requires Valid() && k.current !in k.waiting
      modifies k, v`cur
      ensures Valid() && CallStep(old(Seen()), old(v.sys), boot, Task(Op.Exit(code)), reply, Seen(), v.sys)
    {
      hide LinksOk, RolesOk, FamilyOk, WaitsOk, HistoryOk, Inv, Sound, SpacesIn, SpacesMatch, Pages, Maps, Procs;
      hide MemoryStep, ExitStep;
      ghost var a := Seen();
      CurrentThere(k);
      MatchIn(k.h.Keys, k.idle, boot, space, v.spaces);
      if k.current != INIT && k.current != k.idle {
        Exit(code);
      }
      reply := Lived(Done);
      CurrentThere(k);
      MatchIn(k.h.Keys, k.idle, boot, space, v.spaces);
      SameStep(a, boot, Task(Op.Exit(code)), reply, Seen());
    }

    method LiveFork(memory: bool) returns (reply: Reply)
      requires Valid() && k.current !in k.waiting
      modifies this`space, k, v`mem, v`sys, v`spaces, v.pmm, v.pmm.bitmap, v.pmm.refcount
      ensures Valid() && CallStep(old(Seen()), old(v.sys), boot, Task(Op.Fork(memory)), reply, Seen(), v.sys)
    {
      hide LinksOk, RolesOk, FamilyOk, WaitsOk, HistoryOk, Inv, Sound, SpacesIn, SpacesMatch, Pages, Maps, Procs;
      hide MemoryStep, Needed, ForkStep;
      ghost var a, tasks, idle, spaces, s := Seen(), k.h.Keys, k.idle, v.spaces, v.sys;
      CurrentThere(k);
      MatchIn(tasks, idle, boot, space, spaces);
      SpacesCount(tasks, idle, boot, space, spaces);
      assert |a.space| == |a.space.Keys|;
      if |v.spaces| >= REFCOUNT_MAX {
        NoFork(k, false);
        reply := Lived(Born(None));
        SameStep(a, boot, Task(Op.Fork(memory)), reply, a);
        return;
      }
      var child := Fork(memory);
      reply := Lived(Born(child));
      CurrentThere(k);
      MatchIn(k.h.Keys, k.idle, boot, space, v.spaces);
      if child.Some? {
        ForkStepSeen(a, boot, Task(Op.Fork(memory)), reply, Seen(), tasks, idle, spaces, child.value);
      } else {
        SamePages(s, v.sys);
        SameStep(a, boot, Task(Op.Fork(memory)), reply, Seen());
      }
    }

    /** One call of whichever process runs; a process that waits goes on waiting. */
    method Step(call: Call) returns (reply: Reply)
      requires Valid() && Posed(call)
      modifies this`space, k, v`cur, v`mem, v`sys, v`spaces, v.pmm, v.pmm.bitmap, v.pmm.refcount
      ensures Valid() && CallStep(old(Seen()), old(v.sys), boot, call, reply, Seen(), v.sys)
    {
      hide LinksOk, RolesOk, FamilyOk, WaitsOk, HistoryOk, Inv, Sound, SpacesIn, SpacesMatch, Pages, CallStep, Posed;
      if k.current in k.waiting || call.Task? {
        reply := Live(call);
      } else if call.Execve? {
        reply := Replace(call);
      } else {
        reply := Access(call);
      }
    }

    /** Any run of process calls: a run of the lives of the processes, in which each
        sees only what it did itself. */
    method Run(calls: seq<Call>) returns (replies: seq<Reply>, ghost ms: seq<Moment>)
      requires Valid() && forall i :: 0 <= i < |calls| ==> Posed(calls[i])
      modifies this`space, k, v`cur, v`mem, v`sys, v`spaces, v.pmm, v.pmm.bitmap, v.pmm.refcount
      ensures Valid() && |v.spaces| == |k.h| && boot in v.spaces
      ensures k.current in space && v.cur == space[k.current]
      ensures IsRun(ms, boot, calls, replies)
      ensures ms[0] == old(Moment(Seen(), v.sys)) && ms[|calls|] == Moment(Seen(), v.sys)
    {
      hide LinksOk, RolesOk, FamilyOk, WaitsOk, HistoryOk, Inv, Sound, SpacesIn, SpacesMatch, Pages, CallStep;
      hide Posed, Procs;
      replies, ms := [], [Moment(Seen(), v.sys)];
      for i := 0 to |calls|
        invariant Valid() && IsRun(ms, boot, calls[..i], replies)
        invariant ms[0] == old(Moment(Seen(), v.sys)) && ms[i] == Moment(Seen(), v.sys)
      {
        ghost var m := ms[i];
        var reply := Step(calls[i]);
        assert RunStep(m, boot, calls[i], reply, Moment(Seen(), v.sys));
        assert calls[..i] + [calls[i]] == calls[..i + 1];
        replies, ms := replies + [reply], ms + [Moment(Seen(), v.sys)];
      }
      assert calls[..|calls|] == calls;
      SpacesCount(k.h.Keys, k.idle, boot, space, v.spaces);
      MatchIn(k.h.Keys, k.idle, boot, space, v.spaces);
      assert |k.h| == |k.h.Keys|;
    }
  }

  /** The kernel's own tables, and init loaded into a space of its own, which becomes current. */
  method StartSpaces(pmm: FrameAllocator, mem: map<nat, Content>, guard: nat, f: Elf.File)
    returns (v: PageTables, boot: nat, loaded: Option<Exec.Loaded>)
    requires pmm.Valid() && |pmm.free| >= 6 && (Elf.HeaderOk(f) ==> Elf.Separate(f) && Exec.StackClear(f))
    modifies pmm, pmm.bitmap, pmm.refcount
    ensures loaded.None? ==> !Elf.Accepted(f) || |old(pmm.free)| <= Exec.FramesFor(f) + 6
    ensures loaded.Some? ==>
      && v.Valid(None) && v.SpacesOk() && v.cur == loaded.value.root != boot && v.spaces == {boot} + {v.cur}
      && Elf.Accepted(f) && loaded.value.image.entry == Words.Eight(f, 24)
      && Elf.IsBreak(f, loaded.value.image.brkBase)
      && Pages(v.sys) == Exec.ImagePages(map[], v.cur, f, ZeroPage())
  {
    hide Inv, Sound, SpacesIn, Pages, Elf.Accepted, Elf.Separate, Exec.StackClear, Exec.ImagePages, Exec.FramesFor;
    hide Exec.NoTrace, Boot.KernelMap, Exec.OwnStack, OnlySpace, Elf.IsBreak, Words.Eight;
    v := Boot.VmmInit(pmm, mem, guard);
    boot := v.cur;
    loaded := Exec.LoadImage(v, f);
    if loaded.None? {
      return;
    }
    Exec.SpacesSwitch(v.sys, v.spaces, boot, loaded.value.root);
    v.cur := loaded.value.root;
  }

  /** Boot: the kernel's own tables, init loaded into a space of its own, and the two
      first tasks. It fails only for an image that is not accepted or without frames. */
  method Start(pmm: FrameAllocator, mem: map<nat, Content>, guard: nat, f: Elf.File)
    returns (m: Option<Machine>, image: Elf.Image)
    requires pmm.Valid() && |pmm.free| >= 6 && (Elf.HeaderOk(f) ==> Elf.Separate(f) && Exec.StackClear(f))
    modifies pmm, pmm.bitmap, pmm.refcount
    ensures m.None? ==> !Elf.Accepted(f) || |old(pmm.free)| <= Exec.FramesFor(f) + 6
    ensures m.Some? ==>
      && m.value.Valid() && m.value.k.current == INIT && m.value.space.Keys == {INIT, m.value.k.idle}
      && m.value.k.ring == [INIT, 2] && m.value.k.dead == [] && m.value.k.waiting == map[] && m.value.k.log == []
      && Elf.Accepted(f) && image.entry == Words.Eight(f, 24) && Elf.IsBreak(f, image.brkBase)
      && Pages(m.value.v.sys) == Exec.ImagePages(map[], m.value.v.cur, f, ZeroPage())
  {
    hide LinksOk, RolesOk, FamilyOk, WaitsOk, HistoryOk, Inv, Sound, SpacesIn, Pages, SpacesMatch;
    hide Elf.Accepted, Elf.Separate, Exec.StackClear, Exec.ImagePages, Exec.FramesFor, Elf.IsBreak, Words.Eight;
    var v, boot, loaded := StartSpaces(pmm, mem, guard, f);
    if loaded.None? {
      return None, Elf.Image(0, 0);
    }
    var k := new Kernel();
    TwoTasks(k);
    TwoSpaces(k.h.Keys, k.idle, boot, v.cur);
    var machine := new Machine(k, v, boot, map[INIT := v.cur, k.idle := boot]);
    return Some(machine), loaded.value.image;
  }

  lemma TwoTasks(k: Kernel)
    requires k.Valid() && k.ring == [INIT, 2] && k.dead == [] && k.idle == 2
    ensures k.h.Keys == {INIT, k.idle}
  {
    assert forall t :: t in k.h <==> t in k.ring || t in k.dead;
  }

  lemma TwoSpaces(tasks: set<nat>, idle: nat, boot: nat, root: nat)
    requires tasks == {INIT, idle} && idle != INIT && root != boot
    ensures SpacesMatch(tasks, idle, boot, map[INIT := root, idle := boot], {boot} + {root})
  {
    var space := map[INIT := root, idle := boot];
    assert space[INIT] == root && space[idle] == boot;
  }

  // ---- Isolation ----

  /** Nothing to see of memory has changed, whoever runs now. */
  lemma SameStep(a: View, boot: nat, call: Call, reply: Reply, b: View)
    requires Caller(a) in a.space && b.space == a.space && b.pages == a.pages
    requires Waits(a) || call.Task? || (call.Execve? && reply == Executed(Exec.Failed))
    ensures MemoryStep(a, boot, call, reply, b)
  {}

  lemma NoFork(k: Kernel, memory: bool)
    requires k.Valid()
    ensures k.current == k.idle || !memory ==> ForkStep(k.Shown(), memory, None, k.Shown())
  {}

  lemma TracelessPages(s: Sys, s': Sys)
    requires Exec.NoTrace(s, s')
    ensures Pages(s') == Pages(s)
  {}

  lemma ReapStepSeen(a: View, boot: nat, call: Call, reply: Reply, b: View,
                     tasks: set<nat>, idle: nat, spaces: set<nat>, r: WaitResult)
    requires SpacesMatch(tasks, idle, boot, a.space, spaces) && Caller(a) in a.space && (Waits(a) || call.Task?)
    requires !r.Reaped? ==> b.space == a.space && b.pages == a.pages
    requires r.Reaped? ==>
      && r.pid in a.space && r.pid != Caller(a) && b.space == a.space - {r.pid}
      && EagerFork.DroppedPages(a.pages, b.pages, a.space[r.pid])
    ensures MemoryStep(a, boot, call, reply, b)
  {
    hide Caller, Waits;
  }

  lemma ForkStepSeen(a: View, boot: nat, call: Call, reply: Reply, b: View,
                     tasks: set<nat>, idle: nat, spaces: set<nat>, child: nat)
    requires SpacesMatch(tasks, idle, boot, a.space, spaces) && Caller(a) in a.space && call.Task?
    requires child !in a.space && child in b.space && b.space == a.space[child := b.space[child]]
    requires b.space[child] !in spaces
    requires EagerFork.CopiedPages(a.pages, b.pages, a.space[Caller(a)], b.space[child])
    ensures MemoryStep(a, boot, call, reply, b)
  {
    hide SpacesMatch, Caller, Waits;
    MatchIn(tasks, idle, boot, a.space, spaces);
    forall t | t in a.space ensures SameIn(a.pages, b.pages, a.space[t]) {}
  }

  lemma ReplaceStep(a: View, boot: nat, call: Call, outcome: Exec.Outcome, b: View,
                    tasks: set<nat>, idle: nat, spaces: set<nat>, stack: Page)
    requires SpacesMatch(tasks, idle, boot, a.space, spaces) && Caller(a) in a.space && !Waits(a)
    requires call.Execve? && Posed(call) && Caller(a) in b.space && ImageSeen(a, b, call, outcome, stack)
    requires b.space == a.space[Caller(a) := b.space[Caller(a)]] && b.space[Caller(a)] !in spaces
    ensures MemoryStep(a, boot, call, Executed(outcome), b)
  {
    hide Elf.Accepted, Elf.Separate, Exec.StackClear, Exec.ImagePages, EagerFork.DroppedPages, ExecStack.Crt0;
    hide Caller, Waits, Elf.IsBreak;
    var root, gone := b.space[Caller(a)], a.space[Caller(a)];
    Exec.AcceptedParts(call.f);
    forall t | t in a.space && t in b.space && t != Caller(a)
      ensures b.space[t] == a.space[t] && SameIn(a.pages, b.pages, a.space[t])
    {
      forall l | SpaceOf(l) == Private(a.space[t])
        ensures (l in b.pages <==> l in a.pages) && (l in a.pages ==> b.pages[l] == a.pages[l])
      {
        Exec.OthersSee(a.pages, b.pages, root, gone, call.f, stack, l);
      }
    }
  }

  /** Memory operations of the current space reach no page of another. */
  lemma AccessStep(a: View, s: EagerFork.Spec, call: Call, out: EagerFork.Outcome, s': EagerFork.Spec,
                   tasks: set<nat>, idle: nat)
    requires !call.Task? && !call.Execve? && EagerFork.SpecStep(s, MemoryOp(call, s.current), out, s')
    requires SpacesMatch(tasks, idle, s.boot, a.space, s.spaces) && a.space.Values == s.spaces && a.pages == s.pages
    requires Caller(a) in a.space && a.space[Caller(a)] == s.current && !Waits(a)
    ensures s'.spaces == s.spaces && s'.current == s.current
    ensures MemoryStep(a, s.boot, call, Accessed(out), a.(pages := s'.pages))
  {
    hide EagerFork.SpecStep;
    AccessStays(s, call, out, s');
    forall t | t in a.space && t != Caller(a) ensures SameIn(s.pages, s'.pages, a.space[t]) {
      forall l | SpaceOf(l) == Private(a.space[t])
        ensures (l in s'.pages <==> l in s.pages) && (l in s.pages ==> s'.pages[l] == s.pages[l])
      {
        AccessElsewhere(s, call, out, s', l);
      }
    }
  }

  lemma AccessStays(s: EagerFork.Spec, call: Call, out: EagerFork.Outcome, s': EagerFork.Spec)
    requires !call.Task? && !call.Execve? && EagerFork.SpecStep(s, MemoryOp(call, s.current), out, s')
    ensures s'.spaces == s.spaces && s'.current == s.current && s'.boot == s.boot
  {}

  lemma PathSpace(root: nat, virt: nat)
    ensures SpaceOf(PathOf(root, virt)) == Private(root) || SpaceOf(PathOf(root, virt)) == Shared
  {
    PathShape(root, virt);
    var a, b := Pdpt(root, virt), Pd(root, virt);
    assert SpaceOf(a) == Private(root) || SpaceOf(a) == Shared;
    assert SpaceOf(b) == SpaceOf(a) || SpaceOf(b) == Shared;
  }

  lemma {:induction false} WriteElsewhere(pages: map<Path, PageView>, root: nat, addr: nat, bs: seq<byte>, l: Path)
    requires SpaceOf(l).Private? && SpaceOf(l).root != root
    ensures var m := UserMemory.WriteBytes(pages, root, addr, bs);
      (l in m <==> l in pages) && (l in pages ==> m[l] == pages[l])
    decreases |bs|
  {
    if bs != [] {
      PathSpace(root, addr);
      WriteElsewhere(UserMemory.WriteByte(pages, root, addr, bs[0]), root, addr + 1, bs[1..], l);
    }
  }

  lemma AccessElsewhere(s: EagerFork.Spec, call: Call, out: EagerFork.Outcome, s': EagerFork.Spec, l: Path)
    requires !call.Task? && !call.Execve? && EagerFork.SpecStep(s, MemoryOp(call, s.current), out, s')
    requires SpaceOf(l).Private? && SpaceOf(l).root != s.current
    ensures (l in s'.pages <==> l in s.pages) && (l in s.pages ==> s'.pages[l] == s.pages[l])
  {
    match call
    case Map(virt, _, _) => PathSpace(s.current, virt);
    case Unmap(virt) => PathSpace(s.current, virt);
    case Store(addr, _) => PathSpace(s.current, addr);
    case CopyOut(addr, bytes) =>
      if out.Wrote? && out.n <= |bytes| { WriteElsewhere(s.pages, s.current, addr, bytes[..out.n], l); }
  }

  /** What the memory calls do, outright. */
  lemma AccessMeans(a: View, boot: nat, call: Call, reply: Reply, b: View)
    requires MemoryStep(a, boot, call, reply, b) && !Waits(a) && !call.Task? && !call.Execve?
    ensures Caller(a) in a.space && reply.Accessed? && b.space == a.space
    ensures var r, done := a.space[Caller(a)], reply.out == EagerFork.Done;
      match call
      case Map(virt, write, nx) =>
        b.pages == if done then a.pages[PathOf(r, virt) := PageView(ZeroPage(), write, nx)] else a.pages
      case Unmap(virt) => b.pages == a.pages - {PathOf(r, virt)}
      case Store(addr, value) =>
        if done then b.pages == UserMemory.WriteBytes(a.pages, r, addr, [value]) else b.pages == a.pages
      case CopyOut(addr, bytes) =>
        reply.out.Wrote? && reply.out.n <= |bytes| &&
        b.pages == UserMemory.WriteBytes(a.pages, r, addr, bytes[..reply.out.n])
      case _ => true
  {
    var r := a.space[Caller(a)];
    assert r in a.space.Values;
    if call.Store? { EagerFork.OneByte(a.pages, r, call.addr, call.value); }
  }

  lemma MatchValues(tasks: set<nat>, idle: nat, boot: nat, space: map<nat, nat>, spaces: set<nat>)
    requires SpacesMatch(tasks, idle, boot, space, spaces)
    ensures space.Values == spaces
  {}

  lemma MatchSwap(tasks: set<nat>, idle: nat, boot: nat, space: map<nat, nat>, spaces: set<nat>, t: nat, r: nat)
    requires SpacesMatch(tasks, idle, boot, space, spaces) && t in tasks && t != idle && r !in spaces
    ensures t in space && SpacesMatch(tasks, idle, boot, space[t := r], spaces - {space[t]} + {r})
  {
    var space' := space[t := r];
    forall q | q in spaces - {space[t]} + {r} ensures exists u :: u in space' && space'[u] == q {
      if q == r {
        assert t in space' && space'[t] == q;
      } else {
        var u :| u in space && space[u] == q;
        assert u in space' && space'[u] == q;
      }
    }
  }

  /** There are as many spaces as tasks, zombies included. */
  lemma {:induction false} SpacesCount(tasks: set<nat>, idle: nat, boot: nat, space: map<nat, nat>, spaces: set<nat>)
    requires SpacesMatch(tasks, idle, boot, space, spaces)
    ensures |spaces| == |tasks|
    decreases |tasks|
  {
    if tasks - {idle} == {} {
      assert tasks == {idle} && spaces == {boot};
    } else {
      var t :| t in tasks - {idle};
      MatchLess(tasks, idle, boot, space, spaces, t, idle);
      SpacesCount(tasks - {t}, idle, boot, space - {t}, spaces - {space[t]});
    }
  }

  lemma ChildKeys(h: Tasks.Heap, h': Tasks.Heap, c: nat, p: nat)
    requires WithChild(h, h', c, p)
    ensures h'.Keys == h.Keys + {c}
  {}

  lemma MatchMore(tasks: set<nat>, idle: nat, boot: nat, space: map<nat, nat>, spaces: set<nat>, c: nat, r: nat)
    requires SpacesMatch(tasks, idle, boot, space, spaces) && c !in tasks && r !in spaces
    ensures SpacesMatch(tasks + {c}, idle, boot, space[c := r], spaces + {r})
  {
    var space' := space[c := r];
    forall q | q in spaces + {r} ensures exists t :: t in space' && space'[t] == q {
      if q != r {
        var t :| t in space && space[t] == q;
        assert t in space' && space'[t] == q;
      } else {
        assert c in space' && space'[c] == q;
      }
    }
  }

  lemma MatchLess(tasks: set<nat>, idle: nat, boot: nat, space: map<nat, nat>, spaces: set<nat>, z: nat, current: nat)
    requires SpacesMatch(tasks, idle, boot, space, spaces) && z in tasks && z != idle && current in tasks
    requires current != z
    ensures z in space && current in space && space[z] in spaces && space[z] != space[current]
    ensures SpacesMatch(tasks - {z}, idle, boot, space - {z}, spaces - {space[z]})
  {
    var space' := space - {z};
    forall q | q in spaces - {space[z]} ensures exists t :: t in space' && space'[t] == q {
      var t :| t in space && space[t] == q;
      assert t in space' && space'[t] == q;
    }
  }

  lemma MatchIn(tasks: set<nat>, idle: nat, boot: nat, space: map<nat, nat>, spaces: set<nat>)
    requires SpacesMatch(tasks, idle, boot, space, spaces)
    ensures space.Keys == tasks && boot in spaces && forall t :: t in space ==> space[t] in spaces
  {}

  lemma CurrentThere(k: Kernel)
    requires k.Valid()
    ensures k.current in k.h && k.idle in k.h && k.current in k.ring && k.ring != [] && k.ring[0] == k.current
    ensures k.Shown().procs.Keys == k.h.Keys
  {}
}
