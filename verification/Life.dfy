/** The life of processes, as a specification: which exist, which one runs, in what
    order the others get their turns, and who waits for whom. There are no links here
    and no lists of all tasks. */
module Life {
  import opened Wrappers
  import opened Tasks

  const INIT: nat := 1

  /** What a process is to others: its state, its parent and the code it exited with. */
  datatype Proc = Proc(state: State, parent: Option<nat>, code: int)

  /** A successful waitpid: who reaped whom, with which status. */
  datatype Reap = Reap(parent: nat, pid: nat, status: int)

  /** queue[0] runs and the others follow in the order of their turns; zombies has the
      dead, the latest first; waits has the pid that a task inside waitpid waits for. */
  datatype Scene = Scene(
    procs: map<nat, Proc>, queue: seq<nat>, zombies: seq<nat>, waits: map<nat, int>,
    exited: map<nat, int>, log: seq<Reap>, nextPid: nat, idle: nat)

  datatype Op = Fork(memory: bool) | Yield | Wait(pid: int, options: int) | Exit(code: int)

  datatype WaitResult = Reaped(pid: nat, status: int) | NoChild | NotYet | Blocks

  datatype Answer = Born(child: Option<nat>) | Waited(result: WaitResult) | BadCall | Done

  /** The d-th task in the queue takes its turn: it is ready, and those it overtakes are
      blocked. The one that ran is left in the state given. */
  ghost predicate TurnTo(a: Scene, left: State, d: nat, b: Scene)
  {
    && 1 <= d < |a.queue| && (forall j :: 0 <= j < |a.queue| ==> a.queue[j] in a.procs)
    && a.procs[a.queue[d]].state == READY
    && (forall j :: 1 <= j < d ==> a.procs[a.queue[j]].state == BLOCKED)
    && b.queue == a.queue[d..] + a.queue[..d]
    && b.procs == a.procs[a.queue[0] := a.procs[a.queue[0]].(state := left)]
                         [a.queue[d] := a.procs[a.queue[d]].(state := RUNNING)]
  }

  /** To the next ready task in line; with none the current one goes on. */
  ghost predicate YieldStep(a: Scene, b: Scene)
  {
    || ((exists d :: TurnTo(a, READY, d, b)) && b == a.(procs := b.procs, queue := b.queue))
    || (b == a && forall j :: 1 <= j < |a.queue| ==>
          a.queue[j] in a.procs && a.procs[a.queue[j]].state == BLOCKED)
  }

  /** A child with the next pid, ready and next in line; idle and want of memory refuse. */
  ghost predicate ForkStep(a: Scene, memory: bool, child: Option<nat>, b: Scene)
  {
    && a.queue != []
    && var c := a.queue[0];
    if c == a.idle || !memory then child == None && b == a
    else
      && child == Some(a.nextPid) && a.nextPid !in a.procs
      && b == a.(procs := a.procs[a.nextPid := Proc(READY, Some(c), 0)],
                 queue := [c, a.nextPid] + a.queue[1..], nextPid := a.nextPid + 1)
  }

  /** The current task dies with its code and its parent runs; its children are init's
      now, and init is woken to look at them. */
  ghost predicate ExitStep(a: Scene, code: int, b: Scene)
  {
    && a.queue != [] && a.queue[0] in a.procs && a.procs[a.queue[0]].parent.Some?
    && var x, p := a.queue[0], a.procs[a.queue[0]].parent.value;
    && (exists d :: 1 <= d < |a.queue| && a.queue[d] == p && b.queue == a.queue[d..] + a.queue[1..d])
    && b.procs.Keys == a.procs.Keys
    && (forall t :: t in a.procs ==> b.procs[t] == Proc(
          if t == x then DEAD else if t == p then RUNNING
          else if t == INIT && a.procs[t].state == BLOCKED then READY else a.procs[t].state,
          if a.procs[t].parent == Some(x) then Some(INIT) else a.procs[t].parent,
          if t == x then code else a.procs[t].code))
    && b == a.(procs := b.procs, queue := b.queue, zombies := [x] + a.zombies, exited := a.exited[x := code])
  }

  /** t is a child of c that a wait for pid is about. */
  ghost predicate Mine(a: Scene, c: nat, pid: int, t: nat)
  {
    t in a.procs && a.procs[t].parent == Some(c) && (pid == -1 || pid == t)
  }

  ghost predicate HasDead(a: Scene, c: nat, pid: int)
  {
    exists k :: 0 <= k < |a.zombies| && Mine(a, c, pid, a.zombies[k])
  }

  ghost predicate HasOne(a: Scene, c: nat, pid: int)
  {
    exists t :: Mine(a, c, pid, t)
  }

  /** The latest of the dead that match is gone, and its status is known: the low eight
      bits of its code, in the second byte. */
  ghost predicate ReapStep(a: Scene, pid: int, k: nat, z: nat, status: int, b: Scene)
  {
    && a.queue != [] && k < |a.zombies| && a.zombies[k] == z && Mine(a, a.queue[0], pid, z)
    && (forall j :: 0 <= j < k ==> !Mine(a, a.queue[0], pid, a.zombies[j]))
    && 0 <= status < 0x1_0000 && status % 256 == 0 && status / 256 == a.procs[z].code % 256
    && b == a.(procs := a.procs - {z}, zombies := a.zombies[..k] + a.zombies[k + 1..],
               waits := a.waits - {a.queue[0]}, log := a.log + [Reap(a.queue[0], z, status)])
  }

  /** One look of waitpid: reap, give up, come back later, or sleep until a child dies. */
  ghost predicate WaitStep(a: Scene, pid: int, nohang: bool, r: WaitResult, b: Scene)
  {
    && a.queue != []
    && var c := a.queue[0];
    if HasDead(a, c, pid) then r.Reaped? && exists k :: ReapStep(a, pid, k, r.pid, r.status, b)
    else if !HasOne(a, c, pid) then r == NoChild && b == a.(waits := a.waits - {c})
    else if nohang then r == NotYet && b == a.(waits := a.waits - {c})
    else
      && r == Blocks && (exists d :: TurnTo(a, BLOCKED, d, b))
      && b == a.(procs := b.procs, queue := b.queue, waits := a.waits[c := pid])
  }

  /** One step of whichever task runs: a task inside waitpid looks again, any other
      performs the operation. Neither init nor idle exits. */
  ghost predicate LifeStep(a: Scene, op: Op, answer: Answer, b: Scene)
  {
    && a.queue != []
    && var c := a.queue[0];
    if c in a.waits then answer.Waited? && WaitStep(a, a.waits[c], false, answer.result, b)
    else
      match op
      case Fork(memory) => answer.Born? && ForkStep(a, memory, answer.child, b)
      case Yield => answer == Done && YieldStep(a, b)
      case Wait(pid, options) =>
        if pid == 0 || pid < -1 || (options != 0 && options != 1) then answer == BadCall && b == a
        else answer.Waited? && WaitStep(a, pid, options == 1, answer.result, b)
      case Exit(code) =>
        answer == Done && if c == INIT || c == a.idle then b == a else ExitStep(a, code, b)
  }

  /** The scenes of a run, one step apart. */
  ghost predicate LifeRun(scenes: seq<Scene>, ops: seq<Op>, answers: seq<Answer>)
  {
    && |answers| == |ops| && |scenes| == |ops| + 1
    && forall i :: 0 <= i < |ops| ==> LifeStep(scenes[i], ops[i], answers[i], scenes[i + 1])
  }

  lemma RunNext(scenes: seq<Scene>, ops: seq<Op>, answers: seq<Answer>, s: Scene, op: Op, answer: Answer)
    requires LifeRun(scenes, ops, answers) && LifeStep(scenes[|ops|], op, answer, s)
    ensures LifeRun(scenes + [s], ops + [op], answers + [answer])
  {
    hide LifeStep;
  }

  /** Exit and wait make a pair: when a child exits, its parent runs, and a wait for that
      child, or for any, takes it with the low eight bits of its code. */
  lemma ExitThenWait(a: Scene, code: int, b: Scene, pid: int, nohang: bool, r: WaitResult, c: Scene)
    requires ExitStep(a, code, b) && a.procs[a.queue[0]].parent != Some(a.queue[0])
    requires (pid == -1 || pid == a.queue[0]) && WaitStep(b, pid, nohang, r, c)
    ensures var x := a.queue[0];
      && a.procs[x].parent == Some(b.queue[0])
      && r.Reaped? && r.pid == x && r.status / 256 == code % 256 && r.status % 256 == 0
      && x !in c.procs && c.queue == b.queue
  {
    var x := a.queue[0];
    assert b.zombies[0] == x && Mine(b, b.queue[0], pid, x);
    var k :| ReapStep(b, pid, k, r.pid, r.status, c);
  }

  // ---- Turns ----

  /** Each task has one place: in the queue or among the dead. */
  ghost predicate Placed(a: Scene)
  {
    && (forall i, j :: 0 <= i < j < |a.queue| ==> a.queue[i] != a.queue[j])
    && (forall j :: 0 <= j < |a.queue| ==> a.queue[j] in a.procs)
    && (forall i, j :: 0 <= i < j < |a.zombies| ==> a.zombies[i] != a.zombies[j])
    && (forall j :: 0 <= j < |a.zombies| ==> a.zombies[j] in a.procs && a.zombies[j] !in a.queue)
  }

  /** Task t is k places behind the current one, ready if it is not itself current. */
  ghost predicate Ahead(a: Scene, t: nat, k: nat)
  {
    k < |a.queue| && a.queue[k] == t && t in a.procs && (k > 0 ==> a.procs[t].state == READY)
  }

  /** A turn brings a ready task nearer. */
  lemma CloserEachTurn(a: Scene, left: State, d: nat, b: Scene, t: nat, k: nat)
    requires Placed(a) && TurnTo(a, left, d, b) && b.zombies == a.zombies && Ahead(a, t, k) && k > 0
    ensures Placed(b) && 1 <= d <= k && Ahead(b, t, k - d)
  {
    assert forall x :: x in a.queue <==> x in b.queue by { assert a.queue == a.queue[..d] + a.queue[d..]; }
    assert b.queue[k - d] == t;
  }

  lemma ReapKeepsPlace(a: Scene, pid: int, z: nat, status: int, b: Scene, t: nat, k: nat)
    requires Placed(a) && Ahead(a, t, k) && exists i :: ReapStep(a, pid, i, z, status, b)
    ensures Placed(b) && Ahead(b, t, k) && b.queue == a.queue
  {}

  /** Tasks that yield or wait leave a ready task where it is or bring it nearer; when
      another task runs afterwards it is nearer. */
  lemma NearerOrSame(a: Scene, op: Op, answer: Answer, b: Scene, t: nat, k: nat) returns (k': nat)
    requires LifeStep(a, op, answer, b) && (op.Yield? || op.Wait?) && Placed(a) && Ahead(a, t, k) && k > 0
    ensures Placed(b) && b.queue != [] && Ahead(b, t, k') && if b.queue[0] == a.queue[0] then k' <= k else k' < k
  {
    hide TurnTo, Placed, Ahead, ReapStep;
    k' := k;
    if left, d: nat :| TurnTo(a, left, d, b) && b.zombies == a.zombies && b != a {
      CloserEachTurn(a, left, d, b, t, k);
      k' := k - d;
    } else if answer.Waited? && answer.result.Reaped? {
      var pid := if a.queue[0] in a.waits then a.waits[a.queue[0]] else op.pid;
      ReapKeepsPlace(a, pid, answer.result.pid, answer.result.status, b, t, k);
    } else {
      SamePlace(a, b, t, k);
    }
  }

  lemma SamePlace(a: Scene, b: Scene, t: nat, k: nat)
    requires Placed(a) && Ahead(a, t, k) && b == a.(waits := b.waits)
    ensures Placed(b) && Ahead(b, t, k) && b.queue == a.queue
  {}

  /** How often the running task changes. */
  ghost function Turns(scenes: seq<Scene>): nat
  {
    if |scenes| < 2 then 0
    else
      var a, b := scenes[0].queue, scenes[1].queue;
      Turns(scenes[1..]) + if a != [] && b != [] && a[0] != b[0] then 1 else 0
  }

  /** Bounded waiting: over any run of yields and waits, a task that is ready k places
      behind the current one has run by the time the running task has changed k times. */
  lemma {:induction false} BoundedWaiting(scenes: seq<Scene>, ops: seq<Op>, answers: seq<Answer>, t: nat, k: nat)
    requires LifeRun(scenes, ops, answers) && (forall i :: 0 <= i < |ops| ==> ops[i].Yield? || ops[i].Wait?)
    requires Placed(scenes[0]) && Ahead(scenes[0], t, k) && Turns(scenes) >= k
    ensures exists i :: 0 <= i < |scenes| && scenes[i].queue != [] && scenes[i].queue[0] == t
    decreases |ops|
  {
    hide LifeStep, Placed;
    if k == 0 {
      assert scenes[0].queue[0] == t;
    } else {
      assert |ops| > 0;
      assert LifeStep(scenes[0], ops[0], answers[0], scenes[1]);
      var k' := NearerOrSame(scenes[0], ops[0], answers[0], scenes[1], t, k);
      RunRest(scenes, ops, answers);
      BoundedWaiting(scenes[1..], ops[1..], answers[1..], t, k');
      var i :| 0 <= i < |scenes[1..]| && scenes[1..][i].queue != [] && scenes[1..][i].queue[0] == t;
      assert scenes[i + 1].queue[0] == t;
    }
  }

  lemma RunRest(scenes: seq<Scene>, ops: seq<Op>, answers: seq<Answer>)
    requires LifeRun(scenes, ops, answers) && |ops| > 0
    ensures LifeRun(scenes[1..], ops[1..], answers[1..])
  {
    hide LifeStep;
    forall i | 0 <= i < |ops[1..]| ensures LifeStep(scenes[1..][i], ops[1..][i], answers[1..][i], scenes[1..][i + 1]) {
      assert LifeStep(scenes[i + 1], ops[i + 1], answers[i + 1], scenes[i + 2]);
    }
  }
}
