/** Every step keeps the invariant of parents and children. */
module SchedLinks {
  import opened SchedModel
  import opened SchedInv
  import opened SchedCore

  /** No parent has changed or died, and nobody has come further in giving children away. */
  ghost predicate SameLinks(y: Sys, y': Sys)
  {
    && |y'.tasks| == |y.tasks|
    && forall t :: 0 <= t < |y.tasks| ==>
         && y'.tasks[t].parent == y.tasks[t].parent
         && (Alive(y.tasks[t]) ==>
              Alive(y'.tasks[t]) && StageOf(y'.tasks[t].pc) in {StageOf(y.tasks[t].pc), NotYet, Upto(0)})
  }

  lemma LinksKept(y: Sys, y': Sys)
    requires LinksOk(y) && SameLinks(y, y')
    ensures LinksOk(y')
  {
    forall t | 0 <= t < |y.tasks| ensures ParentOk(y', t) { assert ParentOk(y, t); }
  }

  lemma LinksSchedLock(y: Sys, c: nat)
    requires Core(y) && LinksOk(y) && Enabled(y, SchedLock(c))
    ensures LinksOk(Next(y, SchedLock(c)))
  {
    hide Core; hide LinksOk;
    CoreCpu(y, c);
    LinksKept(y, Next(y, SchedLock(c)));
  }

  lemma LinksSchedRun(y: Sys, c: nat)
    requires Core(y) && LinksOk(y) && Enabled(y, SchedRun(c))
    ensures LinksOk(Next(y, SchedRun(c)))
  {
    hide Core; hide LinksOk;
    CoreCpu(y, c);
    LinksKept(y, Next(y, SchedRun(c)));
  }

  lemma LinksSchedBack(y: Sys, c: nat)
    requires Core(y) && LinksOk(y) && Enabled(y, SchedBack(c))
    ensures LinksOk(Next(y, SchedBack(c)))
  {
    hide Core; hide LinksOk;
    CoreCpu(y, c);
    LinksKept(y, Next(y, SchedBack(c)));
  }

  lemma LinksUnlock(y: Sys, c: nat)
    requires Core(y) && LinksOk(y) && Enabled(y, Unlock(c))
    ensures LinksOk(Next(y, Unlock(c)))
  {
    hide Core; hide LinksOk;
    CoreCpu(y, c);
    LinksKept(y, Next(y, Unlock(c)));
  }

  lemma LinksYield(y: Sys, c: nat)
    requires Core(y) && LinksOk(y) && Enabled(y, Yield(c))
    ensures LinksOk(Next(y, Yield(c)))
  {
    hide Core; hide LinksOk;
    CoreCpu(y, c);
    LinksKept(y, Next(y, Yield(c)));
  }

  lemma LinksSwtch(y: Sys, c: nat)
    requires Core(y) && LinksOk(y) && Enabled(y, Swtch(c))
    ensures LinksOk(Next(y, Swtch(c)))
  {
    hide Core; hide LinksOk;
    CoreCpu(y, c);
    LinksKept(y, Next(y, Swtch(c)));
  }

  lemma LinksAcquire(y: Sys, c: nat, g: nat)
    requires Core(y) && LinksOk(y) && Enabled(y, Acquire(c, g))
    ensures LinksOk(Next(y, Acquire(c, g)))
  {
    hide Core; hide LinksOk;
    CoreCpu(y, c);
    LinksKept(y, Next(y, Acquire(c, g)));
  }

  lemma LinksRelease(y: Sys, c: nat, g: nat)
    requires Core(y) && LinksOk(y) && Enabled(y, Release(c, g))
    ensures LinksOk(Next(y, Release(c, g)))
  {
    hide Core; hide LinksOk;
    CoreCpu(y, c);
    LinksKept(y, Next(y, Release(c, g)));
  }

  lemma LinksSleep(y: Sys, c: nat, g: nat, ch: int)
    requires Core(y) && LinksOk(y) && Enabled(y, Sleep(c, g, ch))
    ensures LinksOk(Next(y, Sleep(c, g, ch)))
  {
    hide Core; hide LinksOk;
    CoreCpu(y, c);
    LinksKept(y, Next(y, Sleep(c, g, ch)));
  }

  lemma LinksRetake(y: Sys, c: nat)
    requires Core(y) && LinksOk(y) && Enabled(y, Retake(c))
    ensures LinksOk(Next(y, Retake(c)))
  {
    hide Core; hide LinksOk;
    CoreCpu(y, c);
    LinksKept(y, Next(y, Retake(c)));
  }

  lemma LinksWakeup(y: Sys, i: nat, ch: int)
    requires Core(y) && LinksOk(y) && Enabled(y, Wakeup(i, ch))
    ensures LinksOk(Next(y, Wakeup(i, ch)))
  {
    hide Core; hide LinksOk;
    CoreTask(y, i);
    LinksKept(y, Next(y, Wakeup(i, ch)));
  }

  lemma LinksP1(y: Sys, c: nat, s: nat, k: Pc)
    requires Core(y) && LinksOk(y) && Enabled(y, P1(c, s, k))
    ensures LinksOk(Next(y, P1(c, s, k)))
  {
    hide Core; hide LinksOk;
    CoreCpu(y, c);
    LinksKept(y, Next(y, P1(c, s, k)));
  }

  lemma LinksP2(y: Sys, c: nat)
    requires Core(y) && LinksOk(y) && Enabled(y, P2(c))
    ensures LinksOk(Next(y, P2(c)))
  {
    hide Core; hide LinksOk;
    CoreCpu(y, c);
    LinksKept(y, Next(y, P2(c)));
  }

  lemma LinksV1(y: Sys, c: nat, s: nat)
    requires Core(y) && LinksOk(y) && Enabled(y, V1(c, s))
    ensures LinksOk(Next(y, V1(c, s)))
  {
    hide Core; hide LinksOk; hide Tell;
    CoreCpu(y, c);
    TellFacts(y, c);
    LinksKept(y, Next(y, V1(c, s)));
  }

  lemma LinksV2(y: Sys, c: nat)
    requires Core(y) && LinksOk(y) && SemsOk(y) && Enabled(y, V2(c))
    ensures LinksOk(Next(y, V2(c)))
  {
    hide Core; hide LinksOk; hide SemsOk;
    CoreCpu(y, c);
    WakerFacts(y, y.cpus[c].at.p);
    LinksKept(y, Next(y, V2(c)));
  }

  lemma LinksExit1(y: Sys, c: nat)
    requires Core(y) && LinksOk(y) && Enabled(y, Exit1(c))
    ensures LinksOk(Next(y, Exit1(c)))
  {
    hide Core; hide LinksOk;
    CoreCpu(y, c);
    LinksKept(y, Next(y, Exit1(c)));
  }

  lemma LinksExit2(y: Sys, c: nat)
    requires Core(y) && LinksOk(y) && Enabled(y, Exit2(c))
    ensures LinksOk(Next(y, Exit2(c)))
  {
    hide Core; hide LinksOk;
    CoreCpu(y, c);
    LinksKept(y, Next(y, Exit2(c)));
  }

  lemma LinksLook(y: Sys, c: nat)
    requires Core(y) && LinksOk(y) && Enabled(y, Look(c))
    ensures LinksOk(Next(y, Look(c)))
  {
    hide Core; hide LinksOk; hide Next; hide Enabled;
    LookIs(y, c);
    CoreCpu(y, c);
    CoreTask(y, MyPc(y, c).i);
    LinksKept(y, Next(y, Look(c)));
  }

  lemma LinksForkLook(y: Sys, c: nat)
    requires Core(y) && LinksOk(y) && Enabled(y, ForkLook(c))
    ensures LinksOk(Next(y, ForkLook(c)))
  {
    hide Core; hide LinksOk; hide Next; hide Enabled;
    ForkLookIs(y, c);
    CoreCpu(y, c);
    var t := y.cpus[c].at.p;
    CoreTask(y, if y.tasks[t].pc.FLook? && y.tasks[t].pc.i < |y.tasks| then y.tasks[t].pc.i else t);
    LinksKept(y, Next(y, ForkLook(c)));
  }

  lemma LinksSpawn(y: Sys, i: nat)
    requires Core(y) && LinksOk(y) && Enabled(y, Spawn(i))
    ensures LinksOk(Next(y, Spawn(i)))
  {
    hide Core; hide LinksOk;
    CoreTask(y, i);
    LinksKept(y, Next(y, Spawn(i)));
  }

  /** The task that a V is about to wake is asleep in P. */
  lemma WakerFacts(y: Sys, v: nat)
    requires SemsOk(y) && v < |y.tasks|
    ensures WakerOk(y, v)
  {
  }

  lemma LinksReparent(y: Sys, c: nat)
    requires Core(y) && LinksOk(y) && Enabled(y, Reparent(c))
    ensures LinksOk(Next(y, Reparent(c)))
  {
    hide Core; hide Next; hide Enabled;
    ReparentIs(y, c);
    CoreCpu(y, c);
    var y' := Next(y, Reparent(c));
    forall t | 0 <= t < |y.tasks| ensures ParentOk(y', t) { assert ParentOk(y, t); }
  }

  lemma LinksJoin(y: Sys, c: nat)
    requires Core(y) && LinksOk(y) && Enabled(y, Join(c))
    ensures LinksOk(Next(y, Join(c)))
  {
    hide Core; hide LinksOk; hide Next; hide Enabled;
    JoinIs(y, c);
    CoreCpu(y, c);
    var y', t := Next(y, Join(c)), y.cpus[c].at.p;
    var i := y.tasks[t].pc.i;
    CoreTask(y, i);
    if y.tasks[i].parent == t {
      ChildFreed(y, y', t, i);
    } else {
      LinksKept(y, y');
    }
  }

  /** A dead child is nobody's child and nobody's parent. */
  lemma ChildFreed(y: Sys, y': Sys, t: nat, i: nat)
    requires LinksOk(y) && t < |y.tasks| && i < |y.tasks| && i != t && |y'.tasks| == |y.tasks|
    requires y.tasks[t].pc == WJoin(i) && y.tasks[i].parent == t && y'.tasks[t] == y.tasks[t].(pc := Idle)
    requires y.tasks[i].pc == Off(Gone) && y'.tasks[i].pc == Off(Gone) && y'.tasks[i].parent == NOBODY &&
      y'.tasks[i].st == DEAD
    requires forall u :: 0 <= u < |y.tasks| && u != t && u != i ==> y'.tasks[u] == y.tasks[u]
    ensures LinksOk(y')
  {
    forall u | 0 <= u < |y.tasks| ensures ParentOk(y', u) { assert ParentOk(y, u); }
  }

  lemma LinksForkMade(y: Sys, c: nat)
    requires Core(y) && LinksOk(y) && Enabled(y, ForkMade(c))
    ensures LinksOk(Next(y, ForkMade(c)))
  {
    hide Core;
    CoreCpu(y, c);
    var y' := Next(y, ForkMade(c));
    forall t | 0 <= t < |y.tasks| ensures ParentOk(y', t) { assert ParentOk(y, t); }
  }
}
