/** kernel/proc.c and kernel/lock.c as a transition system over any number of tasks and CPUs.

    A step runs from one lock acquisition (or context switch) to just before the next one: what it
    does in between is protected by locks it holds, and a release only lets other CPUs go on.  So
    every interleaving of acquisitions and switches is a run of this system.  `mytask` and the read
    of `current` in `exit` are part of the step they occur in. */
module SchedModel {

  datatype State = RUNNING | RUNNABLE | SLEEPING | DEAD | USED | ZOMBIE

  /** Where the control flow of a task stands.  `k` is what follows an operation. */
  datatype Pc =
    | Idle                               // between the operations below, holding none of their locks
    | Hold(gs: set<nat>)                 // holding the spinlocks `gs`, at least one
    | Relock(g: nat)                     // back from sleep, about to take `g` again
    | PWait(s: nat, k: Pc)               // lm_P: queued on `s`, holding its lock, about to lock itself
    | VLock(s: nat, k: Pc)               // exit: about to signal `s`
    | VFound(s: nat, u: nat, k: Pc)      // lm_V: took `u` off the queue of `s`, about to lock it
    | XWait                              // exit: a zombie, about to take wait_lock
    | XScan(j: nat)                      // reparent, at entry `j`
    | WLook(i: nat)                      // sys_wait: about to look at entry `i`
    | WJoin(i: nat)                      // sys_wait: entry `i` is a zombie, locked; about to take wait_lock
    | FLook(i: nat)                      // fork: about to look at entry `i`
    | FMade(i: nat)                      // fork: entry `i` claimed and locked
    | Switch(k: Pc)                      // state set, own lock held, about to call swtch
    | Off(k: Pc)                         // switched out: its context resumes in `Back(k)`
    | Back(k: Pc)                        // switched in, own lock still held
    | Woken(s: nat, k: Pc)               // what follows the swtch in lm_P
    | Asleep(g: nat, rest: set<nat>)     // what follows the swtch in sleep, which has let `g` go but not `rest`
    | Gone                               // what follows the swtch in exit: nothing

  const FREE := -1
  const NOBODY := -1

  /** `lock` is the CPU that holds the task's lock; `on` the CPU whose registers run the task.
      `told` says that the present parent has been signalled since the task became a zombie. */
  datatype Task = Task(st: State, named: bool, pc: Pc, on: int, lock: int, chan: int, parent: int, told: bool)

  /** The last six fields record the history: the initial value, how many V's and P's have changed the
      value, how many P's have got through, and who queued up and who was taken off, in order. */
  datatype Sem = Sem(value: int, queue: seq<nat>, lock: int,
                     init: nat, issued: nat, started: nat, granted: nat, arrivals: seq<nat>, releases: seq<nat>)

  /** What a CPU executes: the scheduler about to lock entry `p`; the scheduler with a runnable entry
      locked; task `p`; the scheduler to which task `p` has just switched. */
  datatype Place = At(p: nat) | Got(p: nat) | In(p: nat) | Out(p: nat)

  datatype Cpu = Cpu(at: Place, cur: int, noff: int)

  /** Semaphore `i` is `sons_sem` of task `i` for every task; there may be any others after them. */
  datatype Sys = Sys(tasks: seq<Task>, cpus: seq<Cpu>, sems: seq<Sem>, spins: seq<int>, waitLock: int)

  datatype Step =
    | SchedLock(c: nat) | SchedRun(c: nat) | SchedBack(c: nat)
    | Unlock(c: nat) | Yield(c: nat) | Swtch(c: nat)
    | Acquire(c: nat, g: nat) | Release(c: nat, g: nat) | Sleep(c: nat, g: nat,
      ch: int) | Retake(c: nat) | Wakeup(i: nat, ch: int)
    | P1(c: nat, s: nat, k: Pc) | P2(c: nat) | V1(c: nat, s: nat) | V2(c: nat)
    | Exit1(c: nat) | Exit2(c: nat) | Reparent(c: nat)
    | Look(c: nat) | Join(c: nat)
    | ForkLook(c: nat) | ForkMade(c: nat) | Spawn(i: nat)

  // ---------------------------------------------------------------------------------------
  // Small updates

  function WithTask(y: Sys, t: nat, e: Task): Sys
    requires t < |y.tasks|
  {
    y.(tasks := y.tasks[t := e])
  }

  function WithSem(y: Sys, s: nat, e: Sem): Sys
    requires s < |y.sems|
  {
    y.(sems := y.sems[s := e])
  }

  /** CPU `c` moves to `at` with `d` more locks held. */
  function WithCpu(y: Sys, c: nat, at: Place, cur: int, d: int): Sys
    requires c < |y.cpus|
  {
    y.(cpus := y.cpus[c := Cpu(at, cur, y.cpus[c].noff + d)])
  }

  /** CPU `c` holds `d` more locks. */
  function Noff(y: Sys, c: nat, d: int): Sys
    requires c < |y.cpus|
  {
    WithCpu(y, c, y.cpus[c].at, y.cpus[c].cur, d)
  }

  predicate InTask(y: Sys, c: nat)
  {
    c < |y.cpus| && y.cpus[c].at.In? && y.cpus[c].at.p < |y.tasks|
  }

  function Me(y: Sys, c: nat): nat
    requires InTask(y, c)
  {
    y.cpus[c].at.p
  }

  function MyPc(y: Sys, c: nat): Pc
    requires InTask(y, c)
  {
    y.tasks[Me(y, c)].pc
  }

  function Goto(y: Sys, c: nat, pc: Pc): Sys
    requires InTask(y, c)
  {
    WithTask(y, Me(y, c), y.tasks[Me(y, c)].(pc := pc))
  }

  /** The task on CPU `c` locks itself and changes its state. */
  function LockSelf(y: Sys, c: nat, st: State, pc: Pc): Sys
    requires InTask(y, c)
  {
    WithTask(y, Me(y, c), y.tasks[Me(y, c)].(lock := c, st := st, pc := pc))
  }

  predicate Unlocked(y: Sys, t: nat)
  {
    t < |y.tasks| && y.tasks[t].lock == FREE
  }

  function After(y: Sys, p: nat): nat
    requires |y.tasks| > 0
  {
    (p + 1) % |y.tasks|
  }

  /** The spinlocks that other code holds when it stands at `pc`. */
  function HeldNow(pc: Pc): set<nat>
  {
    if pc.Hold? then pc.gs else {}
  }

  /** The spinlocks of other code that are held at `pc`, also within an operation that code has called. */
  function Held(pc: Pc): set<nat>
  {
    match pc
    case PWait(_, k) => HeldNow(k)
    case VFound(_, _, k) => HeldNow(k)
    case Switch(k) => if k.Woken? then HeldNow(k.k) else if k.Asleep? then k.rest else {}
    case _ => HeldNow(pc)
  }

  function Holding(gs: set<nat>): Pc
  {
    if gs == {} then Idle else Hold(gs)
  }

  /** Code that may call P, V and the operations of spinlocks. */
  predicate Other(pc: Pc)
  {
    pc.Idle? || pc.Hold?
  }

  /** What sched checks: the task's lock is held, and no other; the state is no longer RUNNING.
      Otherwise it panics. */
  predicate SchedChecks(y: Sys, c: nat)
    requires InTask(y, c)
  {
    y.tasks[Me(y, c)].lock == c && y.cpus[c].noff == 1 && y.tasks[Me(y, c)].st != RUNNING
  }

  /** The points at which a task holds none of the locks, and so can be interrupted. */
  predicate Interruptible(pc: Pc)
  {
    pc.Idle? || pc.Relock? || pc.WLook? || pc.FLook?
  }

  /** What follows when a task switched in has released its lock. */
  function Resumed(k: Pc): Pc
  {
    if k.Woken? then k.k else if k.Asleep? then Relock(k.g) else k
  }

  // ---------------------------------------------------------------------------------------
  // When a step can be taken

  predicate Enabled(y: Sys, e: Step)
  {
    match e
    case SchedLock(c) => c < |y.cpus| && y.cpus[c].at.At? && Unlocked(y, y.cpus[c].at.p)
    case SchedRun(c) => c < |y.cpus| && y.cpus[c].at.Got? && y.cpus[c].at.p < |y.tasks| &&
      y.tasks[y.cpus[c].at.p].pc.Off?
    case SchedBack(c) => c < |y.cpus| && y.cpus[c].at.Out? && y.cpus[c].at.p < |y.tasks|
    case Unlock(c) => InTask(y, c) && MyPc(y, c).Back?
    case Yield(c) => InTask(y, c) && Interruptible(MyPc(y, c)) && Unlocked(y, Me(y, c))
    case Swtch(c) => InTask(y, c) && MyPc(y, c).Switch? && (MyPc(y, c).k.Gone? || SchedChecks(y, c))
    case Acquire(c, g) => InTask(y, c) && Other(MyPc(y, c)) && g < |y.spins| && y.spins[g] == FREE
    case Release(c, g) => InTask(y, c) && MyPc(y, c).Hold? && g in MyPc(y, c).gs && g < |y.spins|
    case Sleep(c, g, ch) => InTask(y, c) && MyPc(y, c).Hold? && g in MyPc(y, c).gs && g < |y.spins| &&
      Unlocked(y, Me(y, c)) && ch != 0
    case Retake(c) => InTask(y, c) && MyPc(y, c).Relock? && MyPc(y, c).g < |y.spins| && y.spins[MyPc(y, c).g] == FREE
    case Wakeup(i, ch) => Unlocked(y, i) && ch != 0
    case P1(c, s, k) =>
      && InTask(y, c) && s < |y.sems| && y.sems[s].lock == FREE
      && (if s < |y.tasks| then s == Me(y, c) && (MyPc(y, c).Idle? || MyPc(y, c) == WLook(|y.tasks|)) && k == WLook(0)
          else Other(MyPc(y, c)) && k == MyPc(y, c))
    case P2(c) => InTask(y, c) && MyPc(y, c).PWait? && MyPc(y, c).s < |y.sems| && Unlocked(y, Me(y, c))
    case V1(c, s) =>
      && InTask(y, c) && s < |y.sems| && y.sems[s].lock == FREE && (y.sems[s].value < 0 ==> y.sems[s].queue != [])
      && ((Other(MyPc(y, c)) && s >= |y.tasks|) || (MyPc(y, c).VLock? && s == MyPc(y, c).s))
    case V2(c) => InTask(y, c) && MyPc(y, c).VFound? && MyPc(y, c).s < |y.sems| && Unlocked(y, MyPc(y, c).u)
    case Exit1(c) => InTask(y, c) && MyPc(y, c).Idle? && Unlocked(y, Me(y, c))
    case Exit2(c) => InTask(y, c) && MyPc(y, c).XWait? && y.waitLock == FREE
    case Reparent(c) => InTask(y, c) && MyPc(y, c).XScan?
    case Look(c) => InTask(y, c) && MyPc(y, c).WLook? && Unlocked(y, MyPc(y, c).i)
    case Join(c) => InTask(y, c) && MyPc(y, c).WJoin? && MyPc(y, c).i < |y.tasks| && y.waitLock == FREE
    case ForkLook(c) =>
      && InTask(y, c) && |y.tasks| <= |y.sems|
      && (MyPc(y, c).Idle? || (MyPc(y, c).FLook? && (MyPc(y, c).i < |y.tasks| ==> Unlocked(y, MyPc(y, c).i))))
    case ForkMade(c) => InTask(y, c) && MyPc(y, c).FMade? && MyPc(y, c).i < |y.tasks|
    case Spawn(i) => Unlocked(y, i)
  }

  // ---------------------------------------------------------------------------------------
  // What a step does

  function Next(y: Sys, e: Step): Sys
    requires Enabled(y, e)
  {
    match e
    case SchedLock(c) => DoSchedLock(y, c)
    case SchedRun(c) => DoSchedRun(y, c)
    case SchedBack(c) => DoSchedBack(y, c)
    case Unlock(c) => DoUnlock(y, c)
    case Yield(c) => Noff(LockSelf(y, c, RUNNABLE, Switch(MyPc(y, c))), c, 1)
    case Swtch(c) => DoSwtch(y, c)
    case Acquire(c, g) => Noff(Goto(y, c, Hold(HeldNow(MyPc(y, c)) + {g})).(spins := y.spins[g := c]), c, 1)
    case Release(c, g) => Noff(Goto(y, c, Holding(MyPc(y, c).gs - {g})).(spins := y.spins[g := FREE]), c, -1)
    case Sleep(c, g, ch) => DoSleep(y, c, g, ch)
    case Retake(c) => Noff(Goto(y, c, Hold({MyPc(y, c).g})).(spins := y.spins[MyPc(y, c).g := c]), c, 1)
    case Wakeup(i, ch) => DoWakeup(y, i, ch)
    case P1(c, s, k) => DoP1(y, c, s, k)
    case P2(c) => DoP2(y, c)
    case V1(c, s) => DoV1(y, c, s)
    case V2(c) => DoV2(y, c)
    case Exit1(c) => Noff(LockSelf(y, c, ZOMBIE, XWait), c, 1)
    case Exit2(c) => DoExit2(y, c)
    case Reparent(c) => DoReparent(y, c)
    case Look(c) => DoLook(y, c)
    case Join(c) => DoJoin(y, c)
    case ForkLook(c) => DoForkLook(y, c)
    case ForkMade(c) => DoForkMade(y, c)
    case Spawn(i) => DoSpawn(y, i)
  }

  /** scheduler: lock the next entry; keep it if it can run. */
  function DoSchedLock(y: Sys, c: nat): Sys
    requires Enabled(y, SchedLock(c))
  {
    var p := y.cpus[c].at.p;
    if y.tasks[p].named && y.tasks[p].st == RUNNABLE then
      WithCpu(WithTask(y, p, y.tasks[p].(lock := c)), c, Got(p), NOBODY, 1)
    else
      WithCpu(y, c, At(After(y, p)), NOBODY, 0)
  }

  /** scheduler: switch to the task found, still holding its lock. */
  function DoSchedRun(y: Sys, c: nat): Sys
    requires Enabled(y, SchedRun(c))
  {
    var p := y.cpus[c].at.p;
    WithCpu(WithTask(y, p, y.tasks[p].(st := RUNNING, pc := Back(y.tasks[p].pc.k), on := c)), c, In(p), p, 0)
  }

  /** scheduler: the task has switched back, its lock held. */
  function DoSchedBack(y: Sys, c: nat): Sys
    requires Enabled(y, SchedBack(c))
  {
    var p := y.cpus[c].at.p;
    WithCpu(WithTask(y, p, y.tasks[p].(lock := FREE)), c, At(After(y, p)), NOBODY, -1)
  }

  /** The far side of the switch: after sched, or at the entry of a new task. */
  function DoUnlock(y: Sys, c: nat): Sys
    requires Enabled(y, Unlock(c))
  {
    var t, k := Me(y, c), MyPc(y, c).k;
    Noff(WithTask(y, t, y.tasks[t].(lock := FREE, chan := if k.Asleep? then 0
      else y.tasks[t].chan, pc := Resumed(k))), c, -1)
  }

  function DoSwtch(y: Sys, c: nat): Sys
    requires Enabled(y, Swtch(c))
  {
    var t := Me(y, c);
    WithCpu(WithTask(y, t, y.tasks[t].(pc := Off(MyPc(y, c).k), on := NOBODY)), c, Out(t), y.cpus[c].cur, 0)
  }

  /** sleep up to its swtch: the lock `g` is exchanged for the task's own. */
  function DoSleep(y: Sys, c: nat, g: nat, ch: int): Sys
    requires Enabled(y, Sleep(c, g, ch))
  {
    var t, gs := Me(y, c), MyPc(y, c).gs;
    WithTask(y, t, y.tasks[t].(lock := c, chan := ch, st := SLEEPING,
      pc := Switch(Asleep(g, gs - {g})))).(spins := y.spins[g := FREE])
  }

  /** One round of the loop of wakeup, in a task or in an interrupt handler. */
  function DoWakeup(y: Sys, i: nat, ch: int): Sys
    requires Enabled(y, Wakeup(i, ch))
  {
    if y.tasks[i].st == SLEEPING && y.tasks[i].chan == ch then WithTask(y, i, y.tasks[i].(st := RUNNABLE)) else y
  }

  /** lm_P up to the lock of the task itself. */
  function DoP1(y: Sys, c: nat, s: nat, k: Pc): Sys
    requires Enabled(y, P1(c, s, k))
  {
    var t, m := Me(y, c), y.sems[s];
    var q := m.(value := m.value - 1, started := m.started + 1);
    if q.value < 0 then
      Noff(Goto(WithSem(y, s, q.(queue := m.queue + [t], arrivals := m.arrivals + [t], lock := c)), c, PWait(s, k)),
        c, 1)
    else
      Goto(WithSem(y, s, q.(granted := m.granted + 1)), c, k)
  }

  function DoP2(y: Sys, c: nat): Sys
    requires Enabled(y, P2(c))
  {
    var s := MyPc(y, c).s;
    LockSelf(WithSem(y, s, y.sems[s].(lock := FREE)), c, SLEEPING, Switch(Woken(s, MyPc(y, c).k)))
  }

  /** Whose new parent is being signalled: the task itself, or the child just given to task 0. */
  function Announced(y: Sys, c: nat): nat
    requires InTask(y, c) && MyPc(y, c).VLock?
  {
    if MyPc(y, c).k.XScan? && MyPc(y, c).k.j > 0 then MyPc(y, c).k.j - 1 else Me(y, c)
  }

  function Tell(y: Sys, c: nat): Sys
    requires InTask(y, c)
  {
    if MyPc(y, c).VLock? && Announced(y, c) < |y.tasks| then
      var a := Announced(y, c);
      WithTask(y, a, y.tasks[a].(told := y.tasks[a].told || y.tasks[a].st == ZOMBIE))
    else y
  }

  /** lm_V up to the lock of the task to wake. */
  function DoV1(y: Sys, c: nat, s: nat): Sys
    requires Enabled(y, V1(c, s))
  {
    var m, k := y.sems[s], if MyPc(y, c).VLock? then MyPc(y, c).k else MyPc(y, c);
    var q := m.(value := m.value + 1, issued := m.issued + 1);
    var x := Tell(y, c);
    if q.value <= 0 then
      var u := m.queue[0];
      Noff(Goto(WithSem(x, s,
        q.(queue := m.queue[1..], releases := m.releases + [u], granted := m.granted + 1, lock := c)), c,
                VFound(s, u, k)), c, 1)
    else
      Goto(WithSem(x, s, q), c, k)
  }

  function DoV2(y: Sys, c: nat): Sys
    requires Enabled(y, V2(c))
  {
    var s, u, k := MyPc(y, c).s, MyPc(y, c).u, MyPc(y, c).k;
    Noff(Goto(WithSem(WithTask(y, u, y.tasks[u].(st := RUNNABLE)), s, y.sems[s].(lock := FREE)), c, k), c, -1)
  }

  function DoExit2(y: Sys, c: nat): Sys
    requires Enabled(y, Exit2(c))
  {
    var p := y.tasks[Me(y, c)].parent;
    Noff(Goto(y, c, if p >= 0 then VLock(p, XScan(0)) else XScan(0)).(waitLock := c), c, 1)
  }

  /** One round of the loop of reparent, or the end of exit. */
  function DoReparent(y: Sys, c: nat): Sys
    requires Enabled(y, Reparent(c))
  {
    var t, j := Me(y, c), MyPc(y, c).j;
    if j >= |y.tasks| then
      Noff(Goto(y, c, Switch(Gone)).(waitLock := FREE), c, -1)
    else if j != t && y.tasks[j].parent == t then
      Goto(WithTask(y, j, y.tasks[j].(parent := 0, told := false)), c, VLock(0, XScan(j + 1)))
    else
      Goto(y, c, XScan(j + 1))
  }

  function DoLook(y: Sys, c: nat): Sys
    requires Enabled(y, Look(c))
  {
    var i := MyPc(y, c).i;
    if y.tasks[i].st == ZOMBIE then
      Noff(Goto(WithTask(y, i, y.tasks[i].(lock := c)), c, WJoin(i)), c, 1)
    else
      Goto(y, c, WLook(i + 1))
  }

  /** sys_wait with the zombie and wait_lock locked: free it if it is a child. */
  function DoJoin(y: Sys, c: nat): Sys
    requires Enabled(y, Join(c))
  {
    var t, i := Me(y, c), MyPc(y, c).i;
    var z := y.tasks[i].(lock := FREE);
    if z.parent == t then
      Noff(Goto(WithTask(y, i, z.(named := false, st := DEAD, parent := NOBODY, told := false)), c, Idle), c, -1)
    else
      Noff(Goto(WithTask(y, i, z), c, WLook(i + 1)), c, -1)
  }

  /** utask_create: entry `i` is claimed if it is dead; its semaphore starts afresh. */
  function DoForkLook(y: Sys, c: nat): Sys
    requires Enabled(y, ForkLook(c))
  {
    var i := if MyPc(y, c).FLook? then MyPc(y, c).i else 0;
    if MyPc(y, c).Idle? then
      Goto(y, c, FLook(0))
    else if i >= |y.tasks| then
      Goto(y, c, Idle)
    else if y.tasks[i].st == DEAD then
      var e := y.tasks[i].(named := true, st := USED, pc := Off(Idle), lock := c);
      Noff(Goto(WithSem(WithTask(y, i, e), i, NewSem(0)), c, FMade(i)), c, 1)
    else
      Goto(y, c, FLook(i + 1))
  }

  /** lm_sem_init */
  function NewSem(value: nat): Sem
  {
    Sem(value, [], FREE, value, 0, 0, 0, [], [])
  }

  function DoForkMade(y: Sys, c: nat): Sys
    requires Enabled(y, ForkMade(c))
  {
    var t, i := Me(y, c), MyPc(y, c).i;
    Noff(Goto(WithTask(y, i, y.tasks[i].(st := RUNNABLE, parent := t, lock := FREE)), c, Idle), c, -1)
  }

  /** task_create: entry `i` becomes a kernel task if it is unnamed. */
  function DoSpawn(y: Sys, i: nat): Sys
    requires Enabled(y, Spawn(i))
  {
    if !y.tasks[i].named then WithTask(y, i, y.tasks[i].(named := true, st := RUNNABLE, pc := Off(Idle))) else y
  }

  // ---------------------------------------------------------------------------------------
  // Runs

  /** task_init and user_init: task 0 can run, all others are dead, all CPUs are in the scheduler. */
  ghost predicate Initial(y: Sys)
  {
    && 0 < |y.tasks| <= |y.sems|
    && (forall t :: 0 <= t < |y.tasks| ==>
          y.tasks[t] == if t == 0 then Task(RUNNABLE, true, Off(Idle), NOBODY, FREE, 0, NOBODY, false)
                        else Task(DEAD, false, Off(Gone), NOBODY, FREE, 0, NOBODY, false))
    && (forall c :: 0 <= c < |y.cpus| ==> y.cpus[c] == Cpu(At(0), NOBODY, 0))
    && (forall s :: 0 <= s < |y.sems| ==> y.sems[s].value >= 0 && y.sems[s] == NewSem(y.sems[s].value))
    && (forall g :: 0 <= g < |y.spins| ==> y.spins[g] == FREE)
    && y.waitLock == FREE
  }

  /** `run` is a run: it starts initially, and every system in it follows from the one before. */
  ghost predicate IsRun(run: seq<Sys>, steps: seq<Step>)
  {
    && |run| == |steps| + 1 && Initial(run[0])
    && forall i :: 0 <= i < |steps| ==> Enabled(run[i], steps[i]) && run[i + 1] == Next(run[i], steps[i])
  }
}
