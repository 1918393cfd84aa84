/** Every reachable state satisfies the invariant, so what follows from it holds in every interleaving. */
module SchedRuns {
  import opened SchedModel
  import opened SchedInv
  import opened SchedCore
  import opened SchedSems
  import opened SchedLinks
  import opened SchedFamily

  lemma InitialInv(y: Sys)
    requires Initial(y)
    ensures Inv(y)
  {
    forall t | 0 <= t < |y.tasks|
      ensures TaskOk(y, t) && LocksOk(y, t) && ToldOk(y, t) && WaiterOk(y, t) && WakerOk(y, t) {
      assert y.tasks[t] == if t == 0 then Task(RUNNABLE, true, Off(Idle), NOBODY, FREE, 0, NOBODY, false)
                           else Task(DEAD, false, Off(Gone), NOBODY, FREE, 0, NOBODY, false);
    }
    forall p | 0 <= p < |y.tasks| ensures CoverOk(y, p) {
      assert forall t :: 0 <= t < |y.tasks| ==> ToldOk(y, t);
      assert Zombies(y, p) == {};
    }
  }

  lemma MyWaker(y: Sys, c: nat)
    requires Core(y) && SemsOk(y) && c < |y.cpus|
    ensures y.cpus[c].at.p < |y.tasks| && WakerOk(y, y.cpus[c].at.p)
  {
    CoreCpu(y, c);
  }

  lemma StepCore(y: Sys, e: Step)
    requires Inv(y) && Enabled(y, e)
    ensures Core(Next(y, e))
  {
    match e {
      case SchedLock(c) => CoreSchedLock(y, c);
      case SchedRun(c) => CoreSchedRun(y, c);
      case SchedBack(c) => CoreSchedBack(y, c);
      case Unlock(c) => CoreUnlock(y, c);
      case Yield(c) => CoreYield(y, c);
      case Swtch(c) => CoreSwtch(y, c);
      case Acquire(c, g) => CoreAcquire(y, c, g);
      case Release(c, g) => CoreRelease(y, c, g);
      case Sleep(c, g, ch) => CoreSleep(y, c, g, ch);
      case Retake(c) => CoreRetake(y, c);
      case Wakeup(i, ch) => CoreWakeup(y, i, ch);
      case P1(c, s, k) => CoreP1(y, c, s, k);
      case P2(c) => CoreP2(y, c);
      case V1(c, s) => SemFacts(y, s); CoreV1(y, c, s);
      case V2(c) => MyWaker(y, c); CoreV2(y, c);
      case Exit1(c) => CoreExit1(y, c);
      case Exit2(c) => CoreExit2(y, c);
      case Reparent(c) => CoreReparent(y, c);
      case Look(c) => CoreLook(y, c);
      case Join(c) => CoreJoin(y, c);
      case ForkLook(c) => CoreForkLook(y, c);
      case ForkMade(c) => CoreForkMade(y, c);
      case Spawn(i) => CoreSpawn(y, i);
    }
  }

  lemma StepSems(y: Sys, e: Step)
    requires Inv(y) && Enabled(y, e)
    ensures SemsOk(Next(y, e))
  {
    match e {
      case SchedLock(c) => SemsSchedLock(y, c);
      case SchedRun(c) => SemsSchedRun(y, c);
      case SchedBack(c) => SemsSchedBack(y, c);
      case Unlock(c) => SemsUnlock(y, c);
      case Yield(c) => SemsYield(y, c);
      case Swtch(c) => SemsSwtch(y, c);
      case Acquire(c, g) => SemsAcquire(y, c, g);
      case Release(c, g) => SemsRelease(y, c, g);
      case Sleep(c, g, ch) => SemsSleep(y, c, g, ch);
      case Retake(c) => SemsRetake(y, c);
      case Wakeup(i, ch) => SemsWakeup(y, i, ch);
      case P1(c, s, k) => SemsP1(y, c, s, k);
      case P2(c) => SemsP2(y, c);
      case V1(c, s) => SemsV1(y, c, s);
      case V2(c) => SemsV2(y, c);
      case Exit1(c) => SemsExit1(y, c);
      case Exit2(c) => SemsExit2(y, c);
      case Reparent(c) => SemsReparent(y, c);
      case Look(c) => SemsLook(y, c);
      case Join(c) => SemsJoin(y, c);
      case ForkLook(c) => SemsForkLook(y, c);
      case ForkMade(c) => SemsForkMade(y, c);
      case Spawn(i) => SemsSpawn(y, i);
    }
  }

  lemma StepLinks(y: Sys, e: Step)
    requires Inv(y) && Enabled(y, e)
    ensures LinksOk(Next(y, e))
  {
    match e {
      case SchedLock(c) => LinksSchedLock(y, c);
      case SchedRun(c) => LinksSchedRun(y, c);
      case SchedBack(c) => LinksSchedBack(y, c);
      case Unlock(c) => LinksUnlock(y, c);
      case Yield(c) => LinksYield(y, c);
      case Swtch(c) => LinksSwtch(y, c);
      case Acquire(c, g) => LinksAcquire(y, c, g);
      case Release(c, g) => LinksRelease(y, c, g);
      case Sleep(c, g, ch) => LinksSleep(y, c, g, ch);
      case Retake(c) => LinksRetake(y, c);
      case Wakeup(i, ch) => LinksWakeup(y, i, ch);
      case P1(c, s, k) => LinksP1(y, c, s, k);
      case P2(c) => LinksP2(y, c);
      case V1(c, s) => LinksV1(y, c, s);
      case V2(c) => LinksV2(y, c);
      case Exit1(c) => LinksExit1(y, c);
      case Exit2(c) => LinksExit2(y, c);
      case Reparent(c) => LinksReparent(y, c);
      case Look(c) => LinksLook(y, c);
      case Join(c) => LinksJoin(y, c);
      case ForkLook(c) => LinksForkLook(y, c);
      case ForkMade(c) => LinksForkMade(y, c);
      case Spawn(i) => LinksSpawn(y, i);
    }
  }

  lemma StepFamily(y: Sys, e: Step)
    requires Inv(y) && Enabled(y, e)
    ensures |Next(y, e).tasks| <= |Next(y, e).sems| && FamilyOk(Next(y, e))
  {
    hide Core; hide SemsOk; hide FamilyOk; hide LinksOk; hide Enabled; hide Next;
    StepCore(y, e);
    CoreSizes(y);
    CoreSizes(Next(y, e));
    match e {
      case SchedLock(c) => FamilySchedLock(y, c);
      case SchedRun(c) => FamilySchedRun(y, c);
      case SchedBack(c) => FamilySchedBack(y, c);
      case Unlock(c) => FamilyUnlock(y, c);
      case Yield(c) => FamilyYield(y, c);
      case Swtch(c) => FamilySwtch(y, c);
      case Acquire(c, g) => FamilyAcquire(y, c, g);
      case Release(c, g) => FamilyRelease(y, c, g);
      case Sleep(c, g, ch) => FamilySleep(y, c, g, ch);
      case Retake(c) => FamilyRetake(y, c);
      case Wakeup(i, ch) => FamilyWakeup(y, i, ch);
      case P1(c, s, k) => FamilyP1(y, c, s, k);
      case P2(c) => FamilyP2(y, c);
      case V1(c, s) => FamilyV1(y, c, s);
      case V2(c) => FamilyV2(y, c);
      case Exit1(c) => FamilyExit1(y, c);
      case Exit2(c) => FamilyExit2(y, c);
      case Reparent(c) => FamilyReparent(y, c);
      case Look(c) => FamilyLook(y, c);
      case Join(c) => FamilyJoin(y, c);
      case ForkLook(c) => FamilyForkLook(y, c);
      case ForkMade(c) => FamilyForkMade(y, c);
      case Spawn(i) => FamilySpawn(y, i);
    }
  }

  /** Every step keeps the invariant. */
  lemma StepInv(y: Sys, e: Step)
    requires Inv(y) && Enabled(y, e)
    ensures Inv(Next(y, e))
  {
    hide Enabled; hide Next; hide Core; hide SemsOk; hide LinksOk; hide FamilyOk;
    StepCore(y, e);
    StepSems(y, e);
    StepLinks(y, e);
    StepFamily(y, e);
  }

  /** Every state of every run satisfies the invariant. */
  lemma {:induction false} RunInv(run: seq<Sys>, steps: seq<Step>, n: nat)
    requires IsRun(run, steps) && n < |run|
    ensures Inv(run[n])
  {
    hide Inv; hide Enabled; hide Next; hide Initial;
    if n == 0 {
      InitialInv(run[0]);
    } else {
      RunInv(run, steps, n - 1);
      StepInv(run[n - 1], steps[n - 1]);
      assert run[n - 1 + 1] == Next(run[n - 1], steps[n - 1]);
    }
  }

  /** In every interleaving, at every moment: no task is current on two CPUs; and one that can run with
      its lock free is executed nowhere. */
  lemma NeverOnTwoCpus(run: seq<Sys>, steps: seq<Step>, n: nat, c: nat, d: nat)
    requires IsRun(run, steps) && n < |run| && c < |run[n].cpus| && d < |run[n].cpus| && c != d
    ensures run[n].cpus[c].cur == run[n].cpus[d].cur ==> run[n].cpus[c].cur == NOBODY
    ensures forall t :: 0 <= t < |run[n].tasks| && run[n].tasks[t].st == RUNNABLE && run[n].tasks[t].lock == FREE ==>
      run[n].tasks[t].pc.Off? && run[n].cpus[c].cur != t
  {
    RunInv(run, steps, n);
    var y := run[n];
    if y.cpus[c].cur == y.cpus[d].cur != NOBODY { CurrentOnce(y, c, d); }
    forall t | 0 <= t < |y.tasks| && y.tasks[t].st == RUNNABLE && y.tasks[t].lock == FREE
      ensures y.tasks[t].pc.Off? && y.cpus[c].cur != t
    {
      RunnableIsNowhere(y, t, c);
    }
  }

  /** At every moment of every run, a semaphore has let no more P's through than its initial value and
      the V's so far allow; the tasks it has released are those that arrived first, in that order, and
      the others are still queued. */
  lemma SemaphoreCounts(run: seq<Sys>, steps: seq<Step>, n: nat, s: nat)
    requires IsRun(run, steps) && n < |run| && s < |run[n].sems|
    ensures var m := run[n].sems[s];
      && m.granted <= m.init + m.issued && |m.queue| == (if m.value < 0 then -m.value else 0)
      && m.releases <= m.arrivals && m.queue == m.arrivals[|m.releases|..]
  {
    hide Core; hide LinksOk; hide FamilyOk; hide IsRun;
    RunInv(run, steps, n);
    GrantsBounded(run[n], s);
    ReleasedInOrder(run[n], s);
  }

  /** At every moment of every run, a task that sleeps in P is queued and the semaphore has no unit to
      give, unless somebody is in the middle of an operation on that semaphore. */
  lemma WakeupsArrive(run: seq<Sys>, steps: seq<Step>, n: nat, t: nat, s: nat)
    requires IsRun(run, steps) && n < |run| && t < |run[n].tasks| && s < |run[n].sems|
    requires RoleOf(run[n].tasks[t]) == Sleeps(s) && run[n].sems[s].lock == FREE
    ensures t in run[n].sems[s].queue && run[n].sems[s].value < 0
  {
    hide Core; hide SemsOk; hide LinksOk; hide FamilyOk; hide IsRun;
    RunInv(run, steps, n);
    NoLostWakeup(run[n], t, s);
  }

  /** At every moment of every run, a parent blocked in sys_wait has no zombie child whose exit is over,
      however the children have come to it, unless somebody has wait_lock. */
  lemma NoChildLost(run: seq<Sys>, steps: seq<Step>, n: nat, p: nat, c: nat)
    requires IsRun(run, steps) && n < |run| && p < |run[n].tasks| && c < |run[n].tasks| && p < |run[n].sems|
    requires RoleOf(run[n].tasks[p]) == Sleeps(p) && p in run[n].sems[p].queue && run[n].waitLock == FREE
    ensures !(run[n].tasks[c].parent == p && run[n].tasks[c].st == ZOMBIE && run[n].tasks[c].lock == FREE)
  {
    hide Inv; hide IsRun;
    RunInv(run, steps, n);
    BlocksOnlyWithoutZombies(run[n], p, c);
  }

  /** The step is a sys_wait that frees the zombie in entry `i`. */
  predicate Reaps(y: Sys, e: Step, i: nat)
  {
    e.Join? && Enabled(y, e) && MyPc(y, e.c).i == i && y.tasks[i].parent == Me(y, e.c)
  }

  /** The step puts a new task into entry `i`, if the entry is dead. */
  predicate Claims(y: Sys, e: Step, i: nat)
  {
    || (e.ForkLook? && Enabled(y, e) && MyPc(y, e.c) == FLook(i))
    || e == Spawn(i)
  }

  lemma DeadStays(y: Sys, e: Step, i: nat)
    requires Core(y) && SemsOk(y) && Enabled(y, e) && i < |y.tasks| && y.tasks[i].st == DEAD && !Claims(y, e, i)
    ensures i < |Next(y, e).tasks| && Next(y, e).tasks[i].st == DEAD
  {
    hide Core; hide SemsOk; hide Next; hide Enabled;
    if e.V1? || e.V2? {
      DeadNotWoken(y, e, i);
    } else if AtEntry(e) {
      DeadAtEntry(y, e, i);
    } else {
      DeadElsewhere(y, e, i);
    }
  }

  predicate AtEntry(e: Step)
  {
    e.Look? || e.Join? || e.ForkLook? || e.ForkMade? || e.Spawn?
  }

  lemma DeadNotWoken(y: Sys, e: Step, i: nat)
    requires Core(y) && SemsOk(y) && Enabled(y, e) && i < |y.tasks| && y.tasks[i].st == DEAD && (e.V1? || e.V2?)
    ensures i < |Next(y, e).tasks| && Next(y, e).tasks[i].st == DEAD
  {
    hide Tell; hide SemsOk; hide Core; hide Next; hide Enabled;
    CoreTask(y, i);
    if e.V1? { V1Is(y, e.c, e.s); } else { V2Is(y, e.c); }
    CoreCpu(y, e.c);
    if e.V1? {
      TellFacts(y, e.c);
    } else {
      WakerFacts(y, Me(y, e.c));
    }
  }

  lemma DeadAtEntry(y: Sys, e: Step, i: nat)
    requires Core(y) && Enabled(y, e) && i < |y.tasks| && y.tasks[i].st == DEAD && !Claims(y, e, i) && AtEntry(e)
    ensures i < |Next(y, e).tasks| && Next(y, e).tasks[i].st == DEAD
  {
    hide Core; hide Next; hide Enabled;
    if e.Look? || e.Join? { DeadInWait(y, e, i); } else { DeadInFork(y, e, i); }
  }

  lemma DeadInWait(y: Sys, e: Step, i: nat)
    requires Core(y) && Enabled(y, e) && i < |y.tasks| && y.tasks[i].st == DEAD && (e.Look? || e.Join?)
    ensures i < |Next(y, e).tasks| && Next(y, e).tasks[i].st == DEAD
  {
    hide Core; hide Next; hide Enabled;
    CoreTask(y, i);
    if e.Look? { LookIs(y, e.c); } else { JoinIs(y, e.c); }
    CoreCpu(y, e.c);
  }

  lemma DeadInFork(y: Sys, e: Step, i: nat)
    requires Core(y) && Enabled(y, e) && i < |y.tasks| && y.tasks[i].st == DEAD && !Claims(y, e, i)
    requires e.ForkLook? || e.ForkMade? || e.Spawn?
    ensures i < |Next(y, e).tasks| && Next(y, e).tasks[i].st == DEAD
  {
    hide Core; hide Next; hide Enabled;
    CoreTask(y, i);
    if e.Spawn? {
      SpawnIs(y, e.i);
    } else {
      if e.ForkLook? { ForkLookIs(y, e.c); } else { ForkMadeIs(y, e.c); }
      CoreCpu(y, e.c);
    }
  }

  lemma SpawnIs(y: Sys, i: nat)
    requires Enabled(y, Spawn(i))
    ensures Unlocked(y, i) && Next(y, Spawn(i)) == DoSpawn(y, i)
  {
  }

  predicate BySpinlock(e: Step)
  {
    e.Acquire? || e.Release? || e.Sleep? || e.Retake? || e.P1? || e.P2? || e.Yield?
  }

  lemma DeadElsewhere(y: Sys, e: Step, i: nat)
    requires Core(y) && Enabled(y, e) && i < |y.tasks| && y.tasks[i].st == DEAD && !e.V1? && !e.V2? && !AtEntry(e)
    ensures i < |Next(y, e).tasks| && Next(y, e).tasks[i].st == DEAD
  {
    hide Core; hide Next; hide Enabled;
    if BySpinlock(e) { DeadLocking(y, e, i); } else { DeadSwitching(y, e, i); }
  }

  lemma OthersStay(y: Sys, e: Step, i: nat)
    requires Enabled(y, e) && BySpinlock(e) && i < |y.tasks|
    ensures InTask(y, e.c) && |Next(y, e).tasks| == |y.tasks| && (i != Me(y, e.c) ==> Next(y, e).tasks[i] == y.tasks[i])
  {
  }

  lemma DeadLocking(y: Sys, e: Step, i: nat)
    requires Core(y) && Enabled(y, e) && i < |y.tasks| && y.tasks[i].st == DEAD && BySpinlock(e)
    ensures i < |Next(y, e).tasks| && Next(y, e).tasks[i].st == DEAD
  {
    hide Core; hide Next; hide Enabled;
    OthersStay(y, e, i);
    CoreTask(y, i);
    CoreCpu(y, e.c);
  }

  lemma DeadSwitching(y: Sys, e: Step, i: nat)
    requires Core(y) && Enabled(y, e) && i < |y.tasks| && y.tasks[i].st == DEAD
    requires !e.V1? && !e.V2? && !AtEntry(e) && !BySpinlock(e)
    ensures i < |Next(y, e).tasks| && Next(y, e).tasks[i].st == DEAD
  {
    hide Core;
    CoreTask(y, i);
    if !e.Wakeup? { CoreCpu(y, e.c); }
  }

  lemma ReapsZombie(y: Sys, e: Step, i: nat)
    requires Core(y) && Reaps(y, e, i)
    ensures i < |y.tasks| && y.tasks[i].st == ZOMBIE
  {
    hide Core;
    CoreCpu(y, e.c);
  }

  lemma {:induction false} DeadUntilClaimed(run: seq<Sys>, steps: seq<Step>, i: nat, a: nat, b: nat)
    requires IsRun(run, steps) && a <= b < |run| && i < |run[a].tasks| && run[a].tasks[i].st == DEAD
    requires forall m :: a <= m < b ==> !Claims(run[m], steps[m], i)
    ensures i < |run[b].tasks| && run[b].tasks[i].st == DEAD
  {
    hide Next; hide Enabled; hide Core; hide SemsOk; hide Initial; hide LinksOk; hide FamilyOk; hide Claims;
    if a < b {
      DeadUntilClaimed(run, steps, i, a, b - 1);
      RunInv(run, steps, b - 1);
      assert Enabled(run[b - 1], steps[b - 1]) && run[b - 1 + 1] == Next(run[b - 1], steps[b - 1]);
      DeadStays(run[b - 1], steps[b - 1], i);
    }
  }

  /** In every run a zombie is freed only when no CPU executes it any more, and it is freed once: before
      the same entry is freed again, a new task has been put into it. */
  lemma ReapedOnce(run: seq<Sys>, steps: seq<Step>, i: nat, a: nat, b: nat, d: nat)
    requires IsRun(run, steps) && a < b < |steps| && Reaps(run[a], steps[a], i) && Reaps(run[b], steps[b], i)
    requires d < |run[a].cpus|
    ensures run[a].tasks[i].st == ZOMBIE && run[a].tasks[i].on == NOBODY && run[a].cpus[d].cur != i
    ensures exists m :: a < m < b && Claims(run[m], steps[m], i)
  {
    hide Core; hide SemsOk; hide Initial; hide LinksOk; hide FamilyOk;
    RunInv(run, steps, a);
    RunInv(run, steps, b);
    ReapedOnceOffCpu(run[a], steps[a].c, d);
    assert run[a + 1] == Next(run[a], steps[a]);
    ReapsZombie(run[b], steps[b], i);
    if forall m :: a < m < b ==> !Claims(run[m], steps[m], i) {
      DeadUntilClaimed(run, steps, i, a + 1, b);
    }
  }

  // ---------------------------------------------------------------------------------------
  // When sched panics

  /** The P at step `i` blocks.  Whenever its task has come to the swtch of that P, sched goes on if the
      task held no lock when it called P, and panics if it did. */
  lemma BlockingP(run: seq<Sys>, steps: seq<Step>, i: nat, j: nat, c: nat, s: nat, k: Pc, d: nat)
    requires IsRun(run, steps) && i < |steps| && i < j < |run| && steps[i] == P1(c, s, k)
    requires InTask(run[i], c) && InTask(run[j], d) && Me(run[j], d) == Me(run[i], c) &&
      MyPc(run[j], d) == Switch(Woken(s, k))
    ensures SchedChecks(run[j], d) <==> run[i].cpus[c].noff == 0
  {
    hide Next; hide Core; hide Initial; hide SemsOk; hide LinksOk; hide FamilyOk;
    RunInv(run, steps, i);
    RunInv(run, steps, j);
    assert Enabled(run[i], steps[i]);
    SchedPanics(run[j], d);
    CallerLocks(run[i], c);
  }

  /** The same for sleep, which lets go of one spinlock itself. */
  lemma BlockingSleep(run: seq<Sys>, steps: seq<Step>, i: nat, c: nat, g: nat, ch: int)
    requires IsRun(run, steps) && i < |steps| && steps[i] == Sleep(c, g, ch)
    ensures InTask(run[i], c) && InTask(run[i + 1], c) && MyPc(run[i + 1], c).Switch?
    ensures SchedChecks(run[i + 1], c) <==> run[i].cpus[c].noff == 1
  {
    hide Core; hide Initial; hide SemsOk; hide LinksOk; hide FamilyOk;
    RunInv(run, steps, i);
    assert Enabled(run[i], steps[i]) && run[i + 1] == Next(run[i], steps[i]);
    RunInv(run, steps, i + 1);
    SchedPanics(run[i + 1], c);
    CallerLocks(run[i], c);
  }

  /** A system of one task and one CPU, with one spinlock and one semaphore besides `sons_sem`. */
  function Single(st: State, pc: Pc, on: int, lock: int, at: Place, cur: int, noff: int, m: Sem, g: int): Sys
  {
    Sys([Task(st, true, pc, on, lock, 0, NOBODY, false)], [Cpu(at, cur, noff)], [NewSem(0), m], [g], FREE)
  }

  const START: Sys := Single(RUNNABLE, Off(Idle), NOBODY, FREE, At(0), NOBODY, 0, NewSem(1), FREE)
  const CHOSEN: Sys := Single(RUNNABLE, Off(Idle), NOBODY, 0, Got(0), NOBODY, 1, NewSem(1), FREE)
  const ENTERED: Sys := Single(RUNNING, Back(Idle), 0, 0, In(0), 0, 1, NewSem(1), FREE)
  const AWAKE: Sys := Single(RUNNING, Idle, 0, FREE, In(0), 0, 0, NewSem(1), FREE)
  const LOCKED: Sys := Single(RUNNING, Hold({0}), 0, FREE, In(0), 0, 1, NewSem(1), 0)
  const TAKEN: Sys := Single(RUNNING, Hold({0}), 0, FREE, In(0), 0, 1, Sem(0, [], FREE, 1, 0, 1, 1, [], []), 0)
  const QUEUED: Sys :=
    Single(RUNNING, PWait(1, Hold({0})), 0, FREE, In(0), 0, 2, Sem(-1, [0], 0, 1, 0, 2, 1, [0], []), 0)
  const STUCK: Sys :=
    Single(SLEEPING, Switch(Woken(1, Hold({0}))), 0, 0, In(0), 0, 2, Sem(-1, [0], FREE, 1, 0, 2, 1, [0], []), 0)

  lemma RunsToLocked()
    ensures Enabled(START, SchedLock(0)) && Next(START, SchedLock(0)) == CHOSEN
    ensures Enabled(CHOSEN, SchedRun(0)) && Next(CHOSEN, SchedRun(0)) == ENTERED
    ensures Enabled(ENTERED, Unlock(0)) && Next(ENTERED, Unlock(0)) == AWAKE
  {
  }

  lemma LocksSpinlock()
    ensures Enabled(AWAKE, Acquire(0, 0)) && Next(AWAKE, Acquire(0, 0)) == LOCKED
    ensures Enabled(LOCKED, P1(0, 1, Hold({0}))) && Next(LOCKED, P1(0, 1, Hold({0}))) == TAKEN
  {
    assert HeldNow(Idle) + {0} == {0};
    assert Next(AWAKE, Acquire(0, 0)).spins == LOCKED.spins;
    assert Next(LOCKED, P1(0, 1, Hold({0}))).sems == TAKEN.sems;
    assert Next(LOCKED, P1(0, 1, Hold({0}))).tasks == TAKEN.tasks;
  }

  lemma BlocksOnItself()
    ensures Enabled(TAKEN, P1(0, 1, Hold({0}))) && Next(TAKEN, P1(0, 1, Hold({0}))) == QUEUED
    ensures Enabled(QUEUED, P2(0)) && Next(QUEUED, P2(0)) == STUCK
  {
    hide Next; hide Enabled;
    TakenQueues();
    QueuedSticks();
  }

  lemma TakenQueues()
    ensures Enabled(TAKEN, P1(0, 1, Hold({0}))) && Next(TAKEN, P1(0, 1, Hold({0}))) == QUEUED
  {
    var none: seq<nat> := [];
    assert none + [0] == [0];
    assert Next(TAKEN, P1(0, 1, Hold({0}))).sems == QUEUED.sems;
  }

  lemma QueuedSticks()
    ensures Enabled(QUEUED, P2(0)) && Next(QUEUED, P2(0)) == STUCK
  {
    assert Next(QUEUED, P2(0)).sems == STUCK.sems;
  }

  /** A run that ends in the panic: as in iput (kernel/fs.c), a task that holds a spinlock takes a
      semaphore of value 1 by P, and then calls P on it once more. */
  lemma PanicRun() returns (run: seq<Sys>, steps: seq<Step>)
    ensures IsRun(run, steps) && InTask(run[|steps|], 0) && MyPc(run[|steps|], 0) == Switch(Woken(1, Hold({0})))
    ensures !SchedChecks(run[|steps|], 0) && run[|steps|].cpus[0].noff == 2
  {
    hide Enabled; hide Next;
    RunsToLocked();
    LocksSpinlock();
    BlocksOnItself();
    var h := Hold({0});
    steps := [SchedLock(0), SchedRun(0), Unlock(0), Acquire(0, 0), P1(0, 1, h), P1(0, 1, h), P2(0)];
    run := [START, CHOSEN, ENTERED, AWAKE, LOCKED, TAKEN, QUEUED, STUCK];
    assert Initial(START);
  }

  // ---------------------------------------------------------------------------------------
  // Mutual exclusion

  /** The tasks inside the region that semaphore `s` guards: let through by P and not yet past their V. */
  function Inside(run: seq<Sys>, steps: seq<Step>, s: nat, n: nat): set<nat>
    requires n <= |steps| && |run| == |steps| + 1
  {
    if n == 0 then {} else Entered(run[n - 1], steps[n - 1], s, Inside(run, steps, s, n - 1))
  }

  function Entered(y: Sys, e: Step, s: nat, before: set<nat>): set<nat>
  {
    if e.P1? && e.s == s && Enabled(y, e) && y.sems[s].value > 0 then
      before + {Me(y, e.c)}
    else if e.V1? && e.s == s && Enabled(y, e) then
      before - {Me(y, e.c)} + (if y.sems[s].value < 0 then {y.sems[s].queue[0]} else {})
    else before
  }

  /** Only tasks inside call V. */
  ghost predicate Disciplined(run: seq<Sys>, steps: seq<Step>, s: nat)
    requires |run| == |steps| + 1
  {
    forall i :: 0 <= i < |steps| && steps[i].V1? && steps[i].s == s && InTask(run[i], steps[i].c) ==>
      Me(run[i], steps[i].c) in Inside(run, steps, s, i)
  }

  /** What a step does to the counts of a semaphore that belongs to no task. */
  lemma CountsStep(y: Sys, e: Step, s: nat)
    requires Core(y) && Enabled(y, e) && |y.tasks| <= s < |y.sems|
    ensures var y' := Next(y, e);
      && |y'.tasks| == |y.tasks| && |y'.sems| == |y.sems| && y'.sems[s].init == y.sems[s].init
      && y'.sems[s].granted - y'.sems[s].issued == y.sems[s].granted - y.sems[s].issued
         + (if e.P1? && e.s == s && y.sems[s].value > 0 then 1 else 0)
         - (if e.V1? && e.s == s && y.sems[s].value >= 0 then 1 else 0)
  {
    if e.V1? {
      hide Tell;
      TellFacts(y, e.c);
    } else if !e.P1? {
      hide Next; hide Enabled; hide Core;
      CountsElsewhere(y, e, s);
    }
  }

  /** Only P and V change the counts. */
  lemma CountsElsewhere(y: Sys, e: Step, s: nat)
    requires Core(y) && Enabled(y, e) && |y.tasks| <= s < |y.sems| && !e.V1? && !e.P1?
    ensures |Next(y, e).tasks| == |y.tasks| && |Next(y, e).sems| == |y.sems|
    ensures var m, m' := y.sems[s], Next(y, e).sems[s];
      m'.init == m.init && m'.granted == m.granted && m'.issued == m.issued
  {
    hide Core; hide Next; hide Enabled;
    if e.P2? {
      P2Is(y, e.c);
    } else if e.V2? {
      V2Is(y, e.c);
    } else if e.ForkLook? {
      ForkLookIs(y, e.c);
    } else {
      SemsUntouched(y, e);
    }
  }

  lemma SemsUntouched(y: Sys, e: Step)
    requires Enabled(y, e) && !e.P1? && !e.P2? && !e.V1? && !e.V2? && !e.ForkLook?
    ensures Next(y, e).sems == y.sems && |Next(y, e).tasks| == |y.tasks|
  {
  }

  lemma Joined(before: set<nat>, t: nat)
    ensures |before + {t}| <= |before| + 1
    ensures t in before ==> |before - {t}| == |before| - 1
  {
    if t !in before { assert |before + {t}| == |before| + 1; } else { assert before + {t} == before; }
  }

  lemma {:induction false} InsideCounted(run: seq<Sys>, steps: seq<Step>, s: nat, n: nat)
    requires IsRun(run, steps) && n <= |steps| && Disciplined(run, steps, s) && |run[0].tasks| <= s < |run[0].sems|
    ensures |run[n].tasks| <= s < |run[n].sems| && run[n].sems[s].init == run[0].sems[s].init
    ensures |Inside(run, steps, s, n)| <= run[n].sems[s].granted - run[n].sems[s].issued
  {
    if n == 0 {
      assert Initial(run[0]);
    } else {
      InsideCounted(run, steps, s, n - 1);
      RunInv(run, steps, n - 1);
      var y, e, before := run[n - 1], steps[n - 1], Inside(run, steps, s, n - 1);
      assert Enabled(y, e) && run[n - 1 + 1] == Next(y, e);
      hide IsRun; hide Initial; hide Next; hide SemsOk; hide Core; hide LinksOk; hide FamilyOk;
      CountsStep(y, e, s);
      if e.P1? || e.V1? {
        Joined(before, Me(y, e.c));
        if e.V1? && e.s == s {
          assert Me(y, e.c) in before;
          if y.sems[s].value < 0 { Joined(before - {Me(y, e.c)}, y.sems[s].queue[0]); }
        }
      }
    }
  }

  /** A semaphore that starts at 1, on which only tasks inside call V, gives mutual exclusion. */
  lemma MutualExclusion(run: seq<Sys>, steps: seq<Step>, s: nat, n: nat)
    requires IsRun(run, steps) && n <= |steps| && Disciplined(run, steps, s)
    requires |run[0].tasks| <= s < |run[0].sems| && run[0].sems[s].init == 1
    ensures |Inside(run, steps, s, n)| <= 1
  {
    InsideCounted(run, steps, s, n);
    RunInv(run, steps, n);
    GrantsBounded(run[n], s);
  }
}
