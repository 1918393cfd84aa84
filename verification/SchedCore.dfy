/** Every step keeps the invariant of tasks, locks and CPUs. */
module SchedCore {
  import opened SchedModel
  import opened SchedInv

  // ---------------------------------------------------------------------------------------
  // What one CPU does leaves the others alone

  /** A lock that CPU `c` holds or could take. */
  predicate FreeFor(lock: int, c: nat)
  {
    lock == FREE || lock == c
  }

  /** All but the family fields. */
  predicate SameSelf(e: Task, e': Task)
  {
    e' == e.(parent := e'.parent, told := e'.told)
  }

  /** How CPU `c` may change the entry `e` of a task to `e'`, when wait_lock is `wait`, among `n` tasks. */
  predicate TaskBy(e: Task, e': Task, c: nat, wait: int, n: nat)
  {
    && ((e'.st == e.st && e'.lock == e.lock) || FreeFor(e.lock, c))
    && ((e'.pc == e.pc && e'.on == e.on) || e.on == c || (e.on == NOBODY && FreeFor(e.lock, c)))
    && (Alive(e) && !Alive(e') ==> FreeFor(wait, c))
    && (e'.parent != e.parent ==>
          && NOBODY <= e'.parent < n && (Alive(e') || e'.parent == NOBODY)
          && FreeFor(if e.parent == NOBODY then e.lock else wait, c))
  }

  /** CPU `c` has changed only what is its own, or protected by locks it holds or has just taken. */
  ghost predicate OnlyBy(y: Sys, y': Sys, c: nat)
  {
    && |y'.tasks| == |y.tasks| && |y'.cpus| == |y.cpus| && |y'.sems| == |y.sems| && |y'.spins| == |y.spins|
    && (forall i :: 0 <= i < |y.tasks| ==> TaskBy(y.tasks[i], y'.tasks[i], c, y.waitLock, |y.tasks|))
    && (forall s :: 0 <= s < |y.sems| ==>
          || y'.sems[s].lock == y.sems[s].lock || FreeFor(y.sems[s].lock, c)
          || (s < |y.tasks| && !Alive(y.tasks[s])))
    && (forall g :: 0 <= g < |y.spins| ==> y'.spins[g] == y.spins[g] || FreeFor(y.spins[g], c))
    && (y'.waitLock == y.waitLock || FreeFor(y.waitLock, c))
    && (forall d :: 0 <= d < |y.cpus| && d != c ==> y'.cpus[d] == y.cpus[d])
  }

  lemma OtherTask(y: Sys, y': Sys, c: nat, u: nat)
    requires Core(y) && OnlyBy(y, y', c) && u < |y.tasks| && y.tasks[u].on != c && SameSelf(y.tasks[u], y'.tasks[u])
    ensures TaskOk(y', u) && LocksOk(y', u)
  {
    hide Core; hide OnlyBy; hide TaskOk; hide LocksOk; hide SameSelf;
    CoreTask(y, u);
    OtherTaskOk(y, y', c, u);
    OtherLocks(y, y', c, u);
  }

  lemma OtherTaskOk(y: Sys, y': Sys, c: nat, u: nat)
    requires OnlyBy(y, y', c) && u < |y.tasks| && y.tasks[u].on != c && SameSelf(y.tasks[u], y'.tasks[u])
    requires TaskOk(y, u) && LocksOk(y, u)
    ensures TaskOk(y', u)
  {
    OtherPc(y, y', c, u);
    hide PcOk; hide LocksOk;
  }

  lemma OtherPc(y: Sys, y': Sys, c: nat, u: nat)
    requires OnlyBy(y, y', c) && u < |y.tasks| && y.tasks[u].on != c && SameSelf(y.tasks[u], y'.tasks[u])
    requires TaskOk(y, u) && LocksOk(y, u)
    ensures PcOk(y', u)
  {
    hide StateOk;
    assert TaskBy(y.tasks[u], y'.tasks[u], c, y.waitLock, |y.tasks|);
  }

  lemma OtherLocks(y: Sys, y': Sys, c: nat, u: nat)
    requires OnlyBy(y, y', c) && u < |y.tasks| && y.tasks[u].on != c && SameSelf(y.tasks[u], y'.tasks[u])
    requires TaskOk(y, u) && LocksOk(y, u) && |y.tasks| <= |y.sems|
    ensures LocksOk(y', u)
  {
    assert TaskBy(y.tasks[u], y'.tasks[u], c, y.waitLock, |y.tasks|);
  }

  lemma OtherCpu(y: Sys, y': Sys, c: nat, d: nat)
    requires Core(y) && OnlyBy(y, y', c) && d < |y.cpus| && d != c
    ensures CpuOk(y', d)
  {
    assert CpuOk(y, d);
    assert TaskOk(y, y.cpus[d].at.p);
  }

  lemma CoreCpu(y: Sys, c: nat)
    requires Core(y) && c < |y.cpus|
    ensures CpuOk(y, c) && y.cpus[c].at.p < |y.tasks| <= |y.sems|
    ensures TaskOk(y, y.cpus[c].at.p) && LocksOk(y, y.cpus[c].at.p)
  {
    assert CpuOk(y, c);
  }

  lemma CoreTask(y: Sys, i: nat)
    requires Core(y) && i < |y.tasks|
    ensures |y.tasks| <= |y.sems| && TaskOk(y, i) && LocksOk(y, i)
  {
  }

  /** The same from outside: no CPU, but task `i` has changed. */
  lemma CoreFromOutside(y: Sys, y': Sys, i: nat)
    requires Core(y) && OnlyBy(y, y', |y.cpus|) && i < |y.tasks| && TaskOk(y', i) && LocksOk(y', i)
    requires forall u :: 0 <= u < |y.tasks| && u != i ==> SameSelf(y.tasks[u], y'.tasks[u])
    ensures Core(y')
  {
    hide LocksOk; hide CpuOk; hide SameSelf;
    forall u | 0 <= u < |y.tasks| ensures TaskOk(y', u) && LocksOk(y', u) {
      assert TaskOk(y, u);
      if u != i { OtherTask(y, y', |y.cpus|, u); }
    }
    forall d | 0 <= d < |y.cpus| ensures CpuOk(y', d) { OtherCpu(y, y', |y.cpus|, d); }
  }

  /** CPU `c`, working for task `t`, has changed besides that task only task `i`. */
  ghost predicate Touches(y: Sys, y': Sys, c: nat, i: nat)
  {
    && OnlyBy(y, y', c) && c < |y.cpus| && i < |y.tasks|
    && forall u :: 0 <= u < |y.tasks| && u != y.cpus[c].at.p && u != i ==> SameSelf(y.tasks[u], y'.tasks[u])
  }

  lemma CoreFrom(y: Sys, y': Sys, c: nat, i: nat)
    requires Core(y) && Touches(y, y', c, i) && y.cpus[c].at.p < |y.tasks|
    requires var t := y.cpus[c].at.p; TaskOk(y', t) && LocksOk(y', t)
    requires TaskOk(y', i) && LocksOk(y', i) && CpuOk(y', c)
    ensures Core(y')
  {
    var t := y.cpus[c].at.p;
    forall u | 0 <= u < |y.tasks| ensures TaskOk(y', u) && LocksOk(y', u) {
      assert TaskOk(y, u);
      if u != t && u != i { OtherTask(y, y', c, u); }
    }
    forall d | 0 <= d < |y.cpus| ensures CpuOk(y', d) {
      if d != c { OtherCpu(y, y', c, d); }
    }
  }

  lemma SchedLockIs(y: Sys, c: nat)
    requires Enabled(y, SchedLock(c))
    ensures c < |y.cpus| && y.cpus[c].at.At? && Unlocked(y, y.cpus[c].at.p)
    ensures Next(y, SchedLock(c)) == DoSchedLock(y, c)
  {
  }

  lemma CoreSchedLock(y: Sys, c: nat)
    requires Core(y) && Enabled(y, SchedLock(c))
    ensures Core(Next(y, SchedLock(c)))
  {
    hide Touches; hide OnlyBy; hide Core; hide TaskOk; hide LocksOk; hide CpuOk; hide Next; hide Enabled;
    TouchesSchedLock(y, c);
    SchedLockTask(y, c);
    SchedLockCpu(y, c);
    CoreFrom(y, Next(y, SchedLock(c)), c, y.cpus[c].at.p);
  }

  lemma TouchesSchedLock(y: Sys, c: nat)
    requires Core(y) && Enabled(y, SchedLock(c))
    ensures c < |y.cpus| && y.cpus[c].at.p < |y.tasks| && Touches(y, Next(y, SchedLock(c)), c, y.cpus[c].at.p)
  {
    hide Core; hide Next; hide Enabled;
    SchedLockIs(y, c);
    CoreCpu(y, c);
  }

  lemma SchedLockTask(y: Sys, c: nat)
    requires Core(y) && Enabled(y, SchedLock(c))
    ensures c < |y.cpus| && y.cpus[c].at.p < |y.tasks|
    ensures var y', t := Next(y, SchedLock(c)), y.cpus[c].at.p;
      t < |y.tasks| == |y'.tasks| && TaskOk(y', t) && LocksOk(y', t)
  {
    hide Core; hide Next; hide Enabled;
    SchedLockIs(y, c);
    CoreCpu(y, c);
  }

  lemma SchedLockCpu(y: Sys, c: nat)
    requires Core(y) && Enabled(y, SchedLock(c))
    ensures c < |Next(y, SchedLock(c)).cpus| && CpuOk(Next(y, SchedLock(c)), c)
  {
    hide Core; hide Next; hide Enabled;
    SchedLockIs(y, c);
    CoreCpu(y, c);
  }

  lemma CoreSchedRun(y: Sys, c: nat)
    requires Core(y) && Enabled(y, SchedRun(c))
    ensures Core(Next(y, SchedRun(c)))
  {
    hide Core;
    CoreCpu(y, c);
    var y', t := Next(y, SchedRun(c)), y.cpus[c].at.p;
    CoreFrom(y, y', c, t);
  }

  lemma CoreSchedBack(y: Sys, c: nat)
    requires Core(y) && Enabled(y, SchedBack(c))
    ensures Core(Next(y, SchedBack(c)))
  {
    hide Core;
    CoreCpu(y, c);
    var y', t := Next(y, SchedBack(c)), y.cpus[c].at.p;
    CoreFrom(y, y', c, t);
  }

  lemma UnlockIs(y: Sys, c: nat)
    requires Enabled(y, Unlock(c))
    ensures InTask(y, c) && MyPc(y, c).Back?
    ensures Next(y, Unlock(c)) == DoUnlock(y, c)
  {
  }

  lemma CoreUnlock(y: Sys, c: nat)
    requires Core(y) && Enabled(y, Unlock(c))
    ensures Core(Next(y, Unlock(c)))
  {
    hide Touches; hide OnlyBy; hide Core; hide TaskOk; hide LocksOk; hide CpuOk; hide Next; hide Enabled;
    TouchesUnlock(y, c);
    UnlockTask(y, c);
    UnlockCpu(y, c);
    CoreFrom(y, Next(y, Unlock(c)), c, y.cpus[c].at.p);
  }

  lemma TouchesUnlock(y: Sys, c: nat)
    requires Core(y) && Enabled(y, Unlock(c))
    ensures c < |y.cpus| && y.cpus[c].at.p < |y.tasks| && Touches(y, Next(y, Unlock(c)), c, y.cpus[c].at.p)
  {
    hide Core; hide Next; hide Enabled;
    UnlockIs(y, c);
    CoreCpu(y, c);
  }

  lemma UnlockTask(y: Sys, c: nat)
    requires Core(y) && Enabled(y, Unlock(c))
    ensures c < |y.cpus| && y.cpus[c].at.p < |y.tasks|
    ensures var y', t := Next(y, Unlock(c)), y.cpus[c].at.p;
      t < |y.tasks| == |y'.tasks| && TaskOk(y', t) && LocksOk(y', t)
  {
    hide Core; hide Next; hide Enabled;
    UnlockIs(y, c);
    CoreCpu(y, c);
  }

  lemma UnlockCpu(y: Sys, c: nat)
    requires Core(y) && Enabled(y, Unlock(c))
    ensures c < |Next(y, Unlock(c)).cpus| && CpuOk(Next(y, Unlock(c)), c)
  {
    hide Core; hide Next; hide Enabled;
    UnlockIs(y, c);
    CoreCpu(y, c);
  }

  lemma YieldIs(y: Sys, c: nat)
    requires Enabled(y, Yield(c))
    ensures InTask(y, c) && Interruptible(MyPc(y, c)) && Unlocked(y, Me(y, c))
    ensures Next(y, Yield(c)) == Noff(LockSelf(y, c, RUNNABLE, Switch(MyPc(y, c))), c, 1)
  {
  }

  lemma CoreYield(y: Sys, c: nat)
    requires Core(y) && Enabled(y, Yield(c))
    ensures Core(Next(y, Yield(c)))
  {
    hide Touches; hide OnlyBy; hide Core; hide Next; hide Enabled;
    YieldIs(y, c);
    CoreCpu(y, c);
    TouchesYield(y, c);
    CoreFrom(y, Next(y, Yield(c)), c, y.cpus[c].at.p);
  }

  lemma TouchesYield(y: Sys, c: nat)
    requires Core(y) && Enabled(y, Yield(c))
    ensures y.cpus[c].at.p < |y.tasks| && Touches(y, Next(y, Yield(c)), c, y.cpus[c].at.p)
  {
    hide Core; hide Next; hide Enabled;
    YieldIs(y, c);
    CoreCpu(y, c);
  }

  lemma CoreSwtch(y: Sys, c: nat)
    requires Core(y) && Enabled(y, Swtch(c))
    ensures Core(Next(y, Swtch(c)))
  {
    hide Core;
    CoreCpu(y, c);
    var y', t := Next(y, Swtch(c)), y.cpus[c].at.p;
    CoreFrom(y, y', c, t);
  }

  lemma AcquireIs(y: Sys, c: nat, g: nat)
    requires Enabled(y, Acquire(c, g))
    ensures InTask(y, c) && Other(MyPc(y, c)) && g < |y.spins| && y.spins[g] == FREE
    ensures Next(y, Acquire(c, g)) == Noff(Goto(y, c, Hold(HeldNow(MyPc(y, c)) + {g})).(spins := y.spins[g := c]), c, 1)
  {
  }

  lemma CoreAcquire(y: Sys, c: nat, g: nat)
    requires Core(y) && Enabled(y, Acquire(c, g))
    ensures Core(Next(y, Acquire(c, g)))
  {
    hide Touches; hide OnlyBy; hide Core; hide TaskOk; hide LocksOk; hide CpuOk; hide Next; hide Enabled;
    TouchesAcquire(y, c, g);
    AcquireTask(y, c, g);
    AcquireCpu(y, c, g);
    CoreFrom(y, Next(y, Acquire(c, g)), c, y.cpus[c].at.p);
  }

  lemma TouchesAcquire(y: Sys, c: nat, g: nat)
    requires Core(y) && Enabled(y, Acquire(c, g))
    ensures c < |y.cpus| && y.cpus[c].at.p < |y.tasks| && Touches(y, Next(y, Acquire(c, g)), c, y.cpus[c].at.p)
  {
    hide Core; hide Next; hide Enabled;
    AcquireIs(y, c, g);
    CoreCpu(y, c);
  }

  lemma AcquireTask(y: Sys, c: nat, g: nat)
    requires Core(y) && Enabled(y, Acquire(c, g))
    ensures c < |y.cpus| && y.cpus[c].at.p < |y.tasks|
    ensures var y', t := Next(y, Acquire(c, g)), y.cpus[c].at.p;
      t < |y.tasks| == |y'.tasks| && TaskOk(y', t) && LocksOk(y', t)
  {
    hide Core; hide Next; hide Enabled;
    AcquireIs(y, c, g);
    CoreCpu(y, c);
  }

  lemma AcquireCpu(y: Sys, c: nat, g: nat)
    requires Core(y) && Enabled(y, Acquire(c, g))
    ensures c < |Next(y, Acquire(c, g)).cpus| && CpuOk(Next(y, Acquire(c, g)), c)
  {
    hide Core; hide Next; hide Enabled;
    AcquireIs(y, c, g);
    CoreCpu(y, c);
  }

  lemma ReleaseIs(y: Sys, c: nat, g: nat)
    requires Enabled(y, Release(c, g))
    ensures InTask(y, c) && MyPc(y, c).Hold? && g in MyPc(y, c).gs && g < |y.spins|
    ensures Next(y, Release(c, g)) == Noff(Goto(y, c, Holding(MyPc(y, c).gs - {g})).(spins := y.spins[g := FREE]),
      c, -1)
  {
  }

  lemma CoreRelease(y: Sys, c: nat, g: nat)
    requires Core(y) && Enabled(y, Release(c, g))
    ensures Core(Next(y, Release(c, g)))
  {
    hide Touches; hide OnlyBy; hide Core; hide TaskOk; hide LocksOk; hide CpuOk; hide Next; hide Enabled;
    TouchesRelease(y, c, g);
    ReleaseTask(y, c, g);
    ReleaseCpu(y, c, g);
    CoreFrom(y, Next(y, Release(c, g)), c, y.cpus[c].at.p);
  }

  lemma TouchesRelease(y: Sys, c: nat, g: nat)
    requires Core(y) && Enabled(y, Release(c, g))
    ensures c < |y.cpus| && y.cpus[c].at.p < |y.tasks| && Touches(y, Next(y, Release(c, g)), c, y.cpus[c].at.p)
  {
    hide Core; hide Next; hide Enabled;
    ReleaseIs(y, c, g);
    CoreCpu(y, c);
  }

  lemma ReleaseTask(y: Sys, c: nat, g: nat)
    requires Core(y) && Enabled(y, Release(c, g))
    ensures c < |y.cpus| && y.cpus[c].at.p < |y.tasks|
    ensures var y', t := Next(y, Release(c, g)), y.cpus[c].at.p;
      t < |y.tasks| == |y'.tasks| && TaskOk(y', t) && LocksOk(y', t)
  {
    hide Core; hide Next; hide Enabled;
    ReleaseIs(y, c, g);
    CoreCpu(y, c);
  }

  lemma ReleaseCpu(y: Sys, c: nat, g: nat)
    requires Core(y) && Enabled(y, Release(c, g))
    ensures c < |Next(y, Release(c, g)).cpus| && CpuOk(Next(y, Release(c, g)), c)
  {
    hide Core; hide Next; hide Enabled;
    ReleaseIs(y, c, g);
    CoreCpu(y, c);
  }

  lemma SleepIs(y: Sys, c: nat, g: nat, ch: int)
    requires Enabled(y, Sleep(c, g, ch))
    ensures InTask(y, c) && MyPc(y, c).Hold? && g in MyPc(y, c).gs && g < |y.spins| && Unlocked(y, Me(y, c)) && ch != 0
    ensures Next(y, Sleep(c, g, ch)) == DoSleep(y, c, g, ch)
  {
  }

  lemma CoreSleep(y: Sys, c: nat, g: nat, ch: int)
    requires Core(y) && Enabled(y, Sleep(c, g, ch))
    ensures Core(Next(y, Sleep(c, g, ch)))
  {
    hide Touches; hide OnlyBy; hide Core; hide Next; hide Enabled;
    SleepIs(y, c, g, ch);
    CoreCpu(y, c);
    TouchesSleep(y, c, g, ch);
    CoreFrom(y, Next(y, Sleep(c, g, ch)), c, y.cpus[c].at.p);
  }

  lemma TouchesSleep(y: Sys, c: nat, g: nat, ch: int)
    requires Core(y) && Enabled(y, Sleep(c, g, ch))
    ensures y.cpus[c].at.p < |y.tasks| && Touches(y, Next(y, Sleep(c, g, ch)), c, y.cpus[c].at.p)
  {
    hide Core; hide Next; hide Enabled;
    SleepIs(y, c, g, ch);
    CoreCpu(y, c);
  }

  lemma RetakeIs(y: Sys, c: nat)
    requires Enabled(y, Retake(c))
    ensures InTask(y, c) && MyPc(y, c).Relock? && MyPc(y, c).g < |y.spins| && y.spins[MyPc(y, c).g] == FREE
    ensures Next(y, Retake(c)) == Noff(Goto(y, c, Hold({MyPc(y, c).g})).(spins := y.spins[MyPc(y, c).g := c]), c, 1)
  {
  }

  lemma CoreRetake(y: Sys, c: nat)
    requires Core(y) && Enabled(y, Retake(c))
    ensures Core(Next(y, Retake(c)))
  {
    hide Touches; hide OnlyBy; hide Core; hide Next; hide Enabled;
    RetakeIs(y, c);
    CoreCpu(y, c);
    TouchesRetake(y, c);
    CoreFrom(y, Next(y, Retake(c)), c, y.cpus[c].at.p);
  }

  lemma TouchesRetake(y: Sys, c: nat)
    requires Core(y) && Enabled(y, Retake(c))
    ensures y.cpus[c].at.p < |y.tasks| && Touches(y, Next(y, Retake(c)), c, y.cpus[c].at.p)
  {
    hide Core; hide Next; hide Enabled;
    RetakeIs(y, c);
    CoreCpu(y, c);
  }

  lemma P1Is(y: Sys, c: nat, s: nat, k: Pc)
    requires Enabled(y, P1(c, s, k))
    ensures InTask(y, c) && s < |y.sems| && y.sems[s].lock == FREE &&
      LockCount(k) == LockCount(MyPc(y, c)) == |Held(k)| && Held(k) == Held(MyPc(y, c))
    ensures (if s < |y.tasks| then s == Me(y, c) && k == WLook(0) &&
      (MyPc(y, c).Idle? || MyPc(y, c) == WLook(|y.tasks|)) else Other(k) && k == MyPc(y, c))
    ensures Next(y, P1(c, s, k)) == DoP1(y, c, s, k)
  {
  }

  lemma CoreP1(y: Sys, c: nat, s: nat, k: Pc)
    requires Core(y) && Enabled(y, P1(c, s, k))
    ensures Core(Next(y, P1(c, s, k)))
  {
    hide Touches; hide OnlyBy; hide Core; hide TaskOk; hide LocksOk; hide CpuOk; hide Next; hide Enabled;
    TouchesP1(y, c, s, k);
    P1Task(y, c, s, k);
    P1Cpu(y, c, s, k);
    CoreFrom(y, Next(y, P1(c, s, k)), c, y.cpus[c].at.p);
  }

  lemma TouchesP1(y: Sys, c: nat, s: nat, k: Pc)
    requires Core(y) && Enabled(y, P1(c, s, k))
    ensures c < |y.cpus| && y.cpus[c].at.p < |y.tasks| && Touches(y, Next(y, P1(c, s, k)), c, y.cpus[c].at.p)
  {
    hide Core; hide Next; hide Enabled;
    P1Is(y, c, s, k);
    CoreCpu(y, c);
  }

  lemma P1Task(y: Sys, c: nat, s: nat, k: Pc)
    requires Core(y) && Enabled(y, P1(c, s, k))
    ensures c < |y.cpus| && y.cpus[c].at.p < |y.tasks|
    ensures var y', t := Next(y, P1(c, s, k)), y.cpus[c].at.p;
      t < |y.tasks| == |y'.tasks| && TaskOk(y', t) && LocksOk(y', t)
  {
    hide Core; hide Next; hide Enabled;
    P1Is(y, c, s, k);
    CoreCpu(y, c);
  }

  lemma P1Cpu(y: Sys, c: nat, s: nat, k: Pc)
    requires Core(y) && Enabled(y, P1(c, s, k))
    ensures c < |Next(y, P1(c, s, k)).cpus| && CpuOk(Next(y, P1(c, s, k)), c)
  {
    hide Core; hide Next; hide Enabled;
    P1Is(y, c, s, k);
    CoreCpu(y, c);
  }

  lemma P2Is(y: Sys, c: nat)
    requires Enabled(y, P2(c))
    ensures InTask(y, c) && MyPc(y, c).PWait? && MyPc(y, c).s < |y.sems| && Unlocked(y, Me(y, c))
    ensures Next(y, P2(c)) == DoP2(y, c)
  {
  }

  lemma CoreP2(y: Sys, c: nat)
    requires Core(y) && Enabled(y, P2(c))
    ensures Core(Next(y, P2(c)))
  {
    hide Touches; hide OnlyBy; hide Core; hide Next; hide Enabled;
    P2Is(y, c);
    CoreCpu(y, c);
    TouchesP2(y, c);
    CoreFrom(y, Next(y, P2(c)), c, y.cpus[c].at.p);
  }

  lemma TouchesP2(y: Sys, c: nat)
    requires Core(y) && Enabled(y, P2(c))
    ensures y.cpus[c].at.p < |y.tasks| && Touches(y, Next(y, P2(c)), c, y.cpus[c].at.p)
  {
    hide Core; hide Next; hide Enabled;
    P2Is(y, c);
    CoreCpu(y, c);
  }

  /** Announcing changes nothing but `told`. */
  lemma TellFacts(y: Sys, c: nat)
    requires InTask(y, c)
    ensures var x := Tell(y, c);
      && |x.tasks| == |y.tasks| && x == y.(tasks := x.tasks)
      && forall u :: 0 <= u < |y.tasks| ==> x.tasks[u] == y.tasks[u].(told := x.tasks[u].told)
  {
  }

  lemma TouchesV1(y: Sys, c: nat, s: nat)
    requires Core(y) && Enabled(y, V1(c, s))
    requires QueueOk(y, s)
    ensures c < |y.cpus| && y.cpus[c].at.p < |y.tasks| && Touches(y, Next(y, V1(c, s)), c, y.cpus[c].at.p)
  {
    hide Core; hide Tell; hide Next; hide Enabled;
    V1Is(y, c, s);
    TellFacts(y, c);
    CoreCpu(y, c);
    var t := y.cpus[c].at.p;
  }

  lemma V1Is(y: Sys, c: nat, s: nat)
    requires Enabled(y, V1(c, s))
    ensures InTask(y, c) && s < |y.sems| && y.sems[s].lock == FREE && (y.sems[s].value < 0 ==> y.sems[s].queue != [])
    ensures (Other(MyPc(y, c)) && s >= |y.tasks|) || (MyPc(y, c).VLock? && s == MyPc(y, c).s)
    ensures Next(y, V1(c, s)) == DoV1(y, c, s)
  {
  }

  lemma CoreV1(y: Sys, c: nat, s: nat)
    requires Core(y) && Enabled(y, V1(c, s))
    requires QueueOk(y, s)
    ensures Core(Next(y, V1(c, s)))
  {
    hide Touches; hide OnlyBy; hide Core; hide Tell; hide TaskOk; hide LocksOk; hide CpuOk; hide Next; hide Enabled;
    TouchesV1(y, c, s);
    V1Task(y, c, s);
    V1Cpu(y, c, s);
    CoreFrom(y, Next(y, V1(c, s)), c, y.cpus[c].at.p);
  }

  lemma V1Task(y: Sys, c: nat, s: nat)
    requires Core(y) && Enabled(y, V1(c, s))
    requires QueueOk(y, s)
    ensures c < |y.cpus| && y.cpus[c].at.p < |y.tasks| == |Next(y, V1(c, s)).tasks|
    ensures TaskOk(Next(y, V1(c, s)), y.cpus[c].at.p) && LocksOk(Next(y, V1(c, s)), y.cpus[c].at.p)
  {
    V1TaskOk(y, c, s);
    V1Locks(y, c, s);
  }

  lemma V1TaskOk(y: Sys, c: nat, s: nat)
    requires Core(y) && Enabled(y, V1(c, s))
    requires QueueOk(y, s)
    ensures c < |y.cpus| && y.cpus[c].at.p < |y.tasks| == |Next(y, V1(c, s)).tasks|
    ensures TaskOk(Next(y, V1(c, s)), y.cpus[c].at.p)
  {
    hide Core; hide Tell; hide Next; hide Enabled; hide LocksOk;
    V1Is(y, c, s);
    TellFacts(y, c);
    CoreCpu(y, c);
  }

  lemma V1Locks(y: Sys, c: nat, s: nat)
    requires Core(y) && Enabled(y, V1(c, s))
    requires QueueOk(y, s)
    ensures c < |y.cpus| && y.cpus[c].at.p < |y.tasks| == |Next(y, V1(c, s)).tasks|
    ensures LocksOk(Next(y, V1(c, s)), y.cpus[c].at.p)
  {
    hide Core; hide Tell; hide Next; hide Enabled;
    V1Is(y, c, s);
    TellFacts(y, c);
    CoreCpu(y, c);
  }

  lemma V1Cpu(y: Sys, c: nat, s: nat)
    requires Core(y) && Enabled(y, V1(c, s))
    requires QueueOk(y, s)
    ensures c < |Next(y, V1(c, s)).cpus| && CpuOk(Next(y, V1(c, s)), c)
  {
    hide Core; hide Tell; hide Next; hide Enabled;
    V1Is(y, c, s);
    TellFacts(y, c);
    CoreCpu(y, c);
  }

  lemma V2Is(y: Sys, c: nat)
    requires Enabled(y, V2(c))
    ensures InTask(y, c) && MyPc(y, c).VFound? && MyPc(y, c).s < |y.sems| && Unlocked(y, MyPc(y, c).u)
    ensures Next(y, V2(c)) == DoV2(y, c)
  {
  }

  function V2At(y: Sys, c: nat): nat
    requires c < |y.cpus| && y.cpus[c].at.p < |y.tasks|
  {
    var t := y.cpus[c].at.p;
    if y.tasks[t].pc.VFound? then y.tasks[t].pc.u else t
  }

  lemma CoreV2(y: Sys, c: nat)
    requires Core(y) && Enabled(y, V2(c))
    requires WakerOk(y, y.cpus[c].at.p)
    ensures Core(Next(y, V2(c)))
  {
    hide Touches; hide OnlyBy; hide Core; hide TaskOk; hide LocksOk; hide CpuOk; hide Next; hide Enabled;
    TouchesV2(y, c);
    V2Other(y, c);
    V2Task(y, c);
    V2Cpu(y, c);
    CoreFrom(y, Next(y, V2(c)), c, V2At(y, c));
  }

  lemma TouchesV2(y: Sys, c: nat)
    requires Core(y) && Enabled(y, V2(c))
    requires WakerOk(y, y.cpus[c].at.p)
    ensures c < |y.cpus| && y.cpus[c].at.p < |y.tasks| && Touches(y, Next(y, V2(c)), c, V2At(y, c))
  {
    hide Core; hide Next; hide Enabled;
    V2Is(y, c);
    CoreCpu(y, c);
    CoreTask(y, V2At(y, c));
  }

  lemma V2Other(y: Sys, c: nat)
    requires Core(y) && Enabled(y, V2(c))
    requires WakerOk(y, y.cpus[c].at.p)
    ensures c < |y.cpus| && y.cpus[c].at.p < |y.tasks|
    ensures var y', i := Next(y, V2(c)), V2At(y, c);
      i < |y.tasks| == |y'.tasks| && TaskOk(y', i) && LocksOk(y', i)
  {
    hide Core; hide Next; hide Enabled;
    V2Is(y, c);
    CoreCpu(y, c);
    CoreTask(y, V2At(y, c));
  }

  lemma V2Task(y: Sys, c: nat)
    requires Core(y) && Enabled(y, V2(c))
    requires WakerOk(y, y.cpus[c].at.p)
    ensures c < |y.cpus| && y.cpus[c].at.p < |y.tasks|
    ensures var y', t := Next(y, V2(c)), y.cpus[c].at.p;
      t < |y.tasks| == |y'.tasks| && TaskOk(y', t) && LocksOk(y', t)
  {
    hide Core; hide Next; hide Enabled;
    V2Is(y, c);
    CoreCpu(y, c);
    CoreTask(y, V2At(y, c));
  }

  lemma V2Cpu(y: Sys, c: nat)
    requires Core(y) && Enabled(y, V2(c))
    requires WakerOk(y, y.cpus[c].at.p)
    ensures c < |Next(y, V2(c)).cpus| && CpuOk(Next(y, V2(c)), c)
  {
    hide Core; hide Next; hide Enabled;
    V2Is(y, c);
    CoreCpu(y, c);
    CoreTask(y, V2At(y, c));
  }

  lemma Exit1Is(y: Sys, c: nat)
    requires Enabled(y, Exit1(c))
    ensures InTask(y, c) && MyPc(y, c).Idle? && Unlocked(y, Me(y, c))
    ensures Next(y, Exit1(c)) == Noff(LockSelf(y, c, ZOMBIE, XWait), c, 1)
  {
  }

  lemma CoreExit1(y: Sys, c: nat)
    requires Core(y) && Enabled(y, Exit1(c))
    ensures Core(Next(y, Exit1(c)))
  {
    hide Touches; hide OnlyBy; hide Core; hide Next; hide Enabled;
    Exit1Is(y, c);
    CoreCpu(y, c);
    TouchesExit1(y, c);
    CoreFrom(y, Next(y, Exit1(c)), c, y.cpus[c].at.p);
  }

  lemma TouchesExit1(y: Sys, c: nat)
    requires Core(y) && Enabled(y, Exit1(c))
    ensures y.cpus[c].at.p < |y.tasks| && Touches(y, Next(y, Exit1(c)), c, y.cpus[c].at.p)
  {
    hide Core; hide Next; hide Enabled;
    Exit1Is(y, c);
    CoreCpu(y, c);
  }

  lemma Exit2Is(y: Sys, c: nat)
    requires Enabled(y, Exit2(c))
    ensures InTask(y, c) && MyPc(y, c).XWait? && y.waitLock == FREE
    ensures Next(y, Exit2(c)) == DoExit2(y, c)
  {
  }

  lemma CoreExit2(y: Sys, c: nat)
    requires Core(y) && Enabled(y, Exit2(c)) && LinksOk(y)
    ensures Core(Next(y, Exit2(c)))
  {
    hide Touches; hide OnlyBy; hide Core; hide TaskOk; hide LocksOk; hide CpuOk; hide Next; hide Enabled; hide LinksOk;
    TouchesExit2(y, c);
    Exit2Task(y, c);
    Exit2Cpu(y, c);
    CoreFrom(y, Next(y, Exit2(c)), c, y.cpus[c].at.p);
  }

  lemma TouchesExit2(y: Sys, c: nat)
    requires Core(y) && Enabled(y, Exit2(c)) && LinksOk(y)
    ensures c < |y.cpus| && y.cpus[c].at.p < |y.tasks| && Touches(y, Next(y, Exit2(c)), c, y.cpus[c].at.p)
  {
    hide Core; hide Next; hide Enabled;
    Exit2Is(y, c);
    CoreCpu(y, c);
  }

  lemma Exit2Task(y: Sys, c: nat)
    requires Core(y) && Enabled(y, Exit2(c)) && LinksOk(y)
    ensures c < |y.cpus| && y.cpus[c].at.p < |y.tasks|
    ensures var y', t := Next(y, Exit2(c)), y.cpus[c].at.p;
      t < |y.tasks| == |y'.tasks| && TaskOk(y', t) && LocksOk(y', t)
  {
    hide Core; hide Next; hide Enabled;
    Exit2Is(y, c);
    CoreCpu(y, c);
    assert ParentOk(y, y.cpus[c].at.p);
  }

  lemma Exit2Cpu(y: Sys, c: nat)
    requires Core(y) && Enabled(y, Exit2(c)) && LinksOk(y)
    ensures c < |Next(y, Exit2(c)).cpus| && CpuOk(Next(y, Exit2(c)), c)
  {
    hide Core; hide Next; hide Enabled;
    Exit2Is(y, c);
    CoreCpu(y, c);
  }

  lemma TouchesReparent(y: Sys, c: nat)
    requires Core(y) && Enabled(y, Reparent(c)) && LinksOk(y)
    ensures c < |y.cpus| && y.cpus[c].at.p < |y.tasks| && Touches(y, Next(y, Reparent(c)), c, y.cpus[c].at.p)
  {
    hide Core; hide Next; hide Enabled;
    ReparentIs(y, c);
    CoreCpu(y, c);
    var t := y.cpus[c].at.p;
    if y.tasks[t].pc.j < |y.tasks| {
      CoreTask(y, y.tasks[t].pc.j);
    }
  }

  lemma ReparentIs(y: Sys, c: nat)
    requires Enabled(y, Reparent(c))
    ensures InTask(y, c) && MyPc(y, c).XScan?
    ensures Next(y, Reparent(c)) == DoReparent(y, c)
  {
  }

  lemma CoreReparent(y: Sys, c: nat)
    requires Core(y) && Enabled(y, Reparent(c)) && LinksOk(y)
    ensures Core(Next(y, Reparent(c)))
  {
    hide Touches; hide OnlyBy; hide Core; hide TaskOk; hide LocksOk; hide CpuOk; hide Next; hide Enabled; hide LinksOk;
    TouchesReparent(y, c);
    ReparentTask(y, c);
    ReparentCpu(y, c);
    CoreFrom(y, Next(y, Reparent(c)), c, y.cpus[c].at.p);
  }

  lemma ReparentTask(y: Sys, c: nat)
    requires Core(y) && Enabled(y, Reparent(c)) && LinksOk(y)
    ensures c < |y.cpus| && y.cpus[c].at.p < |y.tasks| == |Next(y, Reparent(c)).tasks|
    ensures TaskOk(Next(y, Reparent(c)), y.cpus[c].at.p) && LocksOk(Next(y, Reparent(c)), y.cpus[c].at.p)
  {
    hide Core; hide Next; hide Enabled;
    ReparentIs(y, c);
    CoreCpu(y, c);
  }

  lemma ReparentCpu(y: Sys, c: nat)
    requires Core(y) && Enabled(y, Reparent(c)) && LinksOk(y)
    ensures c < |Next(y, Reparent(c)).cpus| && CpuOk(Next(y, Reparent(c)), c)
  {
    hide Core; hide Next; hide Enabled;
    ReparentIs(y, c);
    CoreCpu(y, c);
  }

  lemma TouchesLook(y: Sys, c: nat)
    requires Core(y) && Enabled(y, Look(c))
    ensures c < |y.cpus| && y.cpus[c].at.p < |y.tasks| && Touches(y, Next(y, Look(c)), c, LookAt(y, c))
  {
    hide Core; hide Next; hide Enabled;
    LookIs(y, c);
    CoreCpu(y, c);
    var t := y.cpus[c].at.p;
    var i := y.tasks[t].pc.i;
    CoreTask(y, i);
  }

  lemma LookIs(y: Sys, c: nat)
    requires Enabled(y, Look(c))
    ensures InTask(y, c) && MyPc(y, c).WLook? && Unlocked(y, MyPc(y, c).i)
    ensures Next(y, Look(c)) == DoLook(y, c)
  {
  }

  lemma CoreLook(y: Sys, c: nat)
    requires Core(y) && Enabled(y, Look(c))
    ensures Core(Next(y, Look(c)))
  {
    hide Touches; hide OnlyBy; hide Core; hide TaskOk; hide LocksOk; hide CpuOk; hide Next; hide Enabled;
    TouchesLook(y, c);
    LookOther(y, c);
    LookTask(y, c);
    LookCpu(y, c);
    CoreFrom(y, Next(y, Look(c)), c, LookAt(y, c));
  }

  /** The table entry that the step changes. */
  function LookAt(y: Sys, c: nat): nat
    requires c < |y.cpus| && y.cpus[c].at.p < |y.tasks|
  {
    var t := y.cpus[c].at.p;
    if y.tasks[t].pc.WLook? && y.tasks[t].pc.i < |y.tasks| && y.tasks[y.tasks[t].pc.i].st == ZOMBIE then
      y.tasks[t].pc.i else t
  }

  lemma LookOther(y: Sys, c: nat)
    requires Core(y) && Enabled(y, Look(c))
    ensures var y', i := Next(y, Look(c)), LookAt(y, c);
      i < |y.tasks| == |y'.tasks| && TaskOk(y', i) && LocksOk(y', i)
  {
    hide Core; hide Next; hide Enabled;
    LookIs(y, c);
    CoreCpu(y, c);
    CoreTask(y, LookAt(y, c));
  }

  lemma LookTask(y: Sys, c: nat)
    requires Core(y) && Enabled(y, Look(c))
    ensures var y', t := Next(y, Look(c)), y.cpus[c].at.p;
      t < |y.tasks| == |y'.tasks| && TaskOk(y', t) && LocksOk(y', t)
  {
    hide Core; hide Next; hide Enabled;
    LookIs(y, c);
    CoreCpu(y, c);
    CoreTask(y, LookAt(y, c));
  }

  lemma LookCpu(y: Sys, c: nat)
    requires Core(y) && Enabled(y, Look(c))
    ensures c < |Next(y, Look(c)).cpus| && CpuOk(Next(y, Look(c)), c)
  {
    hide Core; hide Next; hide Enabled;
    LookIs(y, c);
    CoreCpu(y, c);
    CoreTask(y, LookAt(y, c));
  }

  lemma JoinIs(y: Sys, c: nat)
    requires Enabled(y, Join(c))
    ensures InTask(y, c) && MyPc(y, c).WJoin? && MyPc(y, c).i < |y.tasks| && y.waitLock == FREE
    ensures Next(y, Join(c)) == DoJoin(y, c)
  {
  }

  function JoinAt(y: Sys, c: nat): nat
    requires c < |y.cpus| && y.cpus[c].at.p < |y.tasks|
  {
    var t := y.cpus[c].at.p;
    if y.tasks[t].pc.WJoin? then y.tasks[t].pc.i else t
  }

  lemma CoreJoin(y: Sys, c: nat)
    requires Core(y) && Enabled(y, Join(c))
    ensures Core(Next(y, Join(c)))
  {
    hide Touches; hide OnlyBy; hide Core; hide TaskOk; hide LocksOk; hide CpuOk; hide Next; hide Enabled;
    TouchesJoin(y, c);
    JoinOther(y, c);
    JoinTask(y, c);
    JoinCpu(y, c);
    CoreFrom(y, Next(y, Join(c)), c, JoinAt(y, c));
  }

  lemma TouchesJoin(y: Sys, c: nat)
    requires Core(y) && Enabled(y, Join(c))
    ensures c < |y.cpus| && y.cpus[c].at.p < |y.tasks| && Touches(y, Next(y, Join(c)), c, JoinAt(y, c))
  {
    hide Core; hide Next; hide Enabled;
    JoinIs(y, c);
    CoreCpu(y, c);
    CoreTask(y, JoinAt(y, c));
  }

  lemma JoinOther(y: Sys, c: nat)
    requires Core(y) && Enabled(y, Join(c))
    ensures c < |y.cpus| && y.cpus[c].at.p < |y.tasks|
    ensures var y', i := Next(y, Join(c)), JoinAt(y, c);
      i < |y.tasks| == |y'.tasks| && TaskOk(y', i) && LocksOk(y', i)
  {
    hide Core; hide Next; hide Enabled;
    JoinIs(y, c);
    CoreCpu(y, c);
    CoreTask(y, JoinAt(y, c));
  }

  lemma JoinTask(y: Sys, c: nat)
    requires Core(y) && Enabled(y, Join(c))
    ensures c < |y.cpus| && y.cpus[c].at.p < |y.tasks|
    ensures var y', t := Next(y, Join(c)), y.cpus[c].at.p;
      t < |y.tasks| == |y'.tasks| && TaskOk(y', t) && LocksOk(y', t)
  {
    hide Core; hide Next; hide Enabled;
    JoinIs(y, c);
    CoreCpu(y, c);
    CoreTask(y, JoinAt(y, c));
  }

  lemma JoinCpu(y: Sys, c: nat)
    requires Core(y) && Enabled(y, Join(c))
    ensures c < |Next(y, Join(c)).cpus| && CpuOk(Next(y, Join(c)), c)
  {
    hide Core; hide Next; hide Enabled;
    JoinIs(y, c);
    CoreCpu(y, c);
    CoreTask(y, JoinAt(y, c));
  }

  lemma TouchesForkLook(y: Sys, c: nat)
    requires Core(y) && Enabled(y, ForkLook(c))
    ensures c < |y.cpus| && y.cpus[c].at.p < |y.tasks| && Touches(y, Next(y, ForkLook(c)), c, ForkLookAt(y, c))
  {
    hide Core; hide Next; hide Enabled;
    ForkLookIs(y, c);
    CoreCpu(y, c);
    var t := y.cpus[c].at.p;
    var i := if y.tasks[t].pc.FLook? && y.tasks[t].pc.i < |y.tasks| then y.tasks[t].pc.i else t;
    CoreTask(y, i);
  }

  lemma ForkLookIs(y: Sys, c: nat)
    requires Enabled(y, ForkLook(c))
    ensures InTask(y, c) && |y.tasks| <= |y.sems|
    ensures MyPc(y, c).Idle? || (MyPc(y, c).FLook? && (MyPc(y, c).i < |y.tasks| ==> Unlocked(y, MyPc(y, c).i)))
    ensures Next(y, ForkLook(c)) == DoForkLook(y, c)
  {
  }

  lemma CoreForkLook(y: Sys, c: nat)
    requires Core(y) && Enabled(y, ForkLook(c))
    ensures Core(Next(y, ForkLook(c)))
  {
    hide Touches; hide OnlyBy; hide Core; hide TaskOk; hide LocksOk; hide CpuOk; hide Next; hide Enabled;
    TouchesForkLook(y, c);
    if ForkLookAt(y, c) != y.cpus[c].at.p { ForkLookOther(y, c); }
    ForkLookTask(y, c);
    ForkLookCpu(y, c);
    CoreFrom(y, Next(y, ForkLook(c)), c, ForkLookAt(y, c));
  }

  /** The table entry that the step changes. */
  function ForkLookAt(y: Sys, c: nat): nat
    requires c < |y.cpus| && y.cpus[c].at.p < |y.tasks|
  {
    var t := y.cpus[c].at.p;
    if y.tasks[t].pc.FLook? && y.tasks[t].pc.i < |y.tasks| && y.tasks[y.tasks[t].pc.i].st == DEAD then
      y.tasks[t].pc.i else t
  }

  lemma ForkLookOther(y: Sys, c: nat)
    requires Core(y) && Enabled(y, ForkLook(c))
    requires c < |y.cpus| && y.cpus[c].at.p < |y.tasks| && ForkLookAt(y, c) != y.cpus[c].at.p
    ensures var y', i := Next(y, ForkLook(c)), ForkLookAt(y, c);
      i < |y.tasks| == |y'.tasks| && TaskOk(y', i) && LocksOk(y', i)
  {
    hide Core; hide Next; hide Enabled;
    ForkLookIs(y, c);
    CoreCpu(y, c);
    CoreTask(y, ForkLookAt(y, c));
  }

  /** The task itself only moves on; an entry that it claims is another one. */
  lemma ForkLookMoves(y: Sys, c: nat)
    requires Core(y) && Enabled(y, ForkLook(c))
    ensures InTask(y, c) && (MyPc(y, c).Idle? || MyPc(y, c).FLook?)
    ensures var y', t := Next(y, ForkLook(c)), Me(y, c);
      && |y'.tasks| == |y.tasks| && |y'.cpus| == |y.cpus| && y'.cpus[c].at == y.cpus[c].at
      && y'.spins == y.spins && y'.waitLock == y.waitLock
      && var p := y'.tasks[t].pc;
         y'.tasks[t] == y.tasks[t].(pc := p)
         && (p.Idle? || (p.FLook? && p.i <= |y.tasks|) ||
            (p.FMade? && p.i != t && p.i < |y.tasks| && Claimed(y'.tasks[p.i], c)))
  {
    hide Core; hide Next; hide Enabled; hide LocksOk; hide PcOk;
    ForkLookIs(y, c);
    CoreCpu(y, c);
    CoreTask(y, ForkLookAt(y, c));
  }

  predicate Claimed(e: Task, c: nat)
  {
    e.st == USED && e.parent == NOBODY && e.lock == c
  }

  lemma ForkLookTask(y: Sys, c: nat)
    requires Core(y) && Enabled(y, ForkLook(c))
    ensures var y', t := Next(y, ForkLook(c)), y.cpus[c].at.p;
      t < |y.tasks| == |y'.tasks| && TaskOk(y', t) && LocksOk(y', t)
  {
    hide Core; hide Next; hide Enabled;
    ForkLookMoves(y, c);
    CoreCpu(y, c);
  }

  lemma ForkLookCpu(y: Sys, c: nat)
    requires Core(y) && Enabled(y, ForkLook(c))
    ensures c < |Next(y, ForkLook(c)).cpus| && CpuOk(Next(y, ForkLook(c)), c)
  {
    hide Core; hide Next; hide Enabled;
    ForkLookIs(y, c);
    CoreCpu(y, c);
    CoreTask(y, ForkLookAt(y, c));
  }

  lemma TouchesForkMade(y: Sys, c: nat)
    requires Core(y) && Enabled(y, ForkMade(c))
    ensures y.cpus[c].at.p < |y.tasks| && Touches(y, Next(y, ForkMade(c)), c, y.tasks[y.cpus[c].at.p].pc.i)
  {
    hide Core; hide Next; hide Enabled;
    ForkMadeIs(y, c);
    CoreCpu(y, c);
    CoreTask(y, MyPc(y, c).i);
  }

  lemma ForkMadeIs(y: Sys, c: nat)
    requires Enabled(y, ForkMade(c))
    ensures InTask(y, c) && MyPc(y, c).FMade? && MyPc(y, c).i < |y.tasks| && Next(y, ForkMade(c)) == DoForkMade(y, c)
  {
  }

  lemma CoreForkMade(y: Sys, c: nat)
    requires Core(y) && Enabled(y, ForkMade(c))
    ensures Core(Next(y, ForkMade(c)))
  {
    hide Touches; hide OnlyBy; hide Core; hide TaskOk; hide LocksOk; hide CpuOk; hide Next; hide Enabled;
    TouchesForkMade(y, c);
    ForkMadeTask(y, c);
    ForkMadeOther(y, c);
    CoreFrom(y, Next(y, ForkMade(c)), c, y.tasks[y.cpus[c].at.p].pc.i);
  }

  lemma ForkMadeTask(y: Sys, c: nat)
    requires Core(y) && Enabled(y, ForkMade(c))
    ensures var y', t := Next(y, ForkMade(c)), y.cpus[c].at.p;
      c < |y'.cpus| && t < |y.tasks| == |y'.tasks| && TaskOk(y', t) && LocksOk(y', t) && CpuOk(y', c)
  {
    hide Core; hide Next; hide Enabled;
    ForkMadeIs(y, c);
    CoreCpu(y, c);
  }

  lemma ForkMadeOther(y: Sys, c: nat)
    requires Core(y) && Enabled(y, ForkMade(c))
    ensures InTask(y, c) && MyPc(y, c).FMade?
    ensures var y', i := Next(y, ForkMade(c)), MyPc(y, c).i;
      i < |y.tasks| == |y'.tasks| && TaskOk(y', i) && LocksOk(y', i)
  {
    hide Core; hide Next; hide Enabled;
    ForkMadeIs(y, c);
    CoreCpu(y, c);
    CoreTask(y, MyPc(y, c).i);
  }

  lemma CoreWakeup(y: Sys, i: nat, ch: int)
    requires Core(y) && Enabled(y, Wakeup(i, ch))
    ensures Core(Next(y, Wakeup(i, ch)))
  {
    hide Core;
    CoreTask(y, i);
    CoreFromOutside(y, Next(y, Wakeup(i, ch)), i);
  }

  lemma CoreSpawn(y: Sys, i: nat)
    requires Core(y) && Enabled(y, Spawn(i))
    ensures Core(Next(y, Spawn(i)))
  {
    hide Core;
    CoreTask(y, i);
    CoreFromOutside(y, Next(y, Spawn(i)), i);
  }
}
