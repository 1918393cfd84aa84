/** What becomes of a task's parent in every run: fork gives it one, exit hands the children over to task 0 and
    signals for them, and only wait takes the parent away. */
module SchedExit {
  import opened Common
  import opened SchedModel
  import opened SchedInv
  import opened SchedCore
  import opened SchedSems
  import opened SchedLinks
  import opened SchedFamily
  import opened SchedRuns

  // ---------------------------------------------------------------------------------------
  // Who changes a parent

  /** The step is not one of reparent, wait or fork. */
  predicate LeavesParents(e: Step)
  {
    !e.Reparent? && !e.Join? && !e.ForkMade?
  }

  lemma ParentsStay(y: Sys, e: Step, u: nat)
    requires Core(y) && SemsOk(y) && Enabled(y, e) && LeavesParents(e) && u < |y.tasks|
    ensures |Next(y, e).tasks| == |y.tasks| && Next(y, e).tasks[u].parent == y.tasks[u].parent
  {
    hide Core; hide SemsOk; hide Next; hide Enabled;
    if BySpinlock(e) {
      OthersStay(y, e, u);
      MineStays(y, e);
    } else if e.V1? || e.V2? {
      ParentsInV(y, e, u);
    } else if AtEntry(e) {
      ParentsAtEntry(y, e, u);
    } else {
      ParentsElsewhere(y, e, u);
    }
  }

  lemma MineStays(y: Sys, e: Step)
    requires Enabled(y, e) && BySpinlock(e)
    ensures InTask(y, e.c) && |Next(y, e).tasks| == |y.tasks|
    ensures Next(y, e).tasks[Me(y, e.c)].parent == y.tasks[Me(y, e.c)].parent
  {
  }

  lemma ParentsInV(y: Sys, e: Step, u: nat)
    requires Core(y) && SemsOk(y) && Enabled(y, e) && (e.V1? || e.V2?) && u < |y.tasks|
    ensures |Next(y, e).tasks| == |y.tasks| && Next(y, e).tasks[u].parent == y.tasks[u].parent
  {
    hide Core; hide SemsOk; hide Next; hide Enabled; hide Tell;
    if e.V1? {
      V1Is(y, e.c, e.s);
      TellFacts(y, e.c);
    } else {
      V2Is(y, e.c);
      CoreCpu(y, e.c);
      WakerFacts(y, Me(y, e.c));
    }
  }

  lemma ParentsAtEntry(y: Sys, e: Step, u: nat)
    requires Core(y) && Enabled(y, e) && (e.Look? || e.ForkLook? || e.Spawn?) && u < |y.tasks|
    ensures |Next(y, e).tasks| == |y.tasks| && Next(y, e).tasks[u].parent == y.tasks[u].parent
  {
    hide Core; hide Next; hide Enabled;
    if e.Look? { LookIs(y, e.c); } else if e.ForkLook? { ForkLookIs(y, e.c); } else { SpawnIs(y, e.i); }
  }

  lemma ParentsElsewhere(y: Sys, e: Step, u: nat)
    requires Enabled(y, e) && LeavesParents(e) && !BySpinlock(e) && !e.V1? && !e.V2? && !AtEntry(e) && u < |y.tasks|
    ensures |Next(y, e).tasks| == |y.tasks| && Next(y, e).tasks[u].parent == y.tasks[u].parent
  {
  }

  /** A parent changes only when it exits, and then task 0 is the new one, or when the task is freed. */
  lemma ParentStep(y: Sys, e: Step, u: nat)
    requires Core(y) && SemsOk(y) && Enabled(y, e) && u < |y.tasks| && y.tasks[u].parent >= 0 && !Reaps(y, e, u)
    ensures |Next(y, e).tasks| == |y.tasks|
    ensures Next(y, e).tasks[u].parent == y.tasks[u].parent ||
      (e.Reparent? && InTask(y, e.c) && Me(y, e.c) == y.tasks[u].parent && Next(y, e).tasks[u].parent == 0)
  {
    hide Core; hide SemsOk; hide Next; hide Enabled;
    if e.Reparent? {
      ReparentIs(y, e.c);
    } else if e.Join? {
      ParentInWait(y, e.c, u);
    } else if e.ForkMade? {
      ParentInFork(y, e.c, u);
    } else {
      ParentsStay(y, e, u);
    }
  }

  lemma ParentInWait(y: Sys, c: nat, u: nat)
    requires Enabled(y, Join(c)) && u < |y.tasks| && !Reaps(y, Join(c), u)
    ensures |Next(y, Join(c)).tasks| == |y.tasks| && Next(y, Join(c)).tasks[u].parent == y.tasks[u].parent
  {
    hide Next; hide Enabled;
    JoinIs(y, c);
  }

  lemma ParentInFork(y: Sys, c: nat, u: nat)
    requires Core(y) && Enabled(y, ForkMade(c)) && u < |y.tasks| && y.tasks[u].parent >= 0
    ensures |Next(y, ForkMade(c)).tasks| == |y.tasks| && Next(y, ForkMade(c)).tasks[u].parent == y.tasks[u].parent
  {
    hide Core; hide Next; hide Enabled;
    ForkMadeIs(y, c);
    CoreCpu(y, c);
  }

  // ---------------------------------------------------------------------------------------
  // Fork

  lemma ParentLives(y: Sys, u: nat)
    requires Inv(y) && u < |y.tasks| && y.tasks[u].parent >= 0
    ensures var p := y.tasks[u].parent;
      p < |y.tasks| && p != u && Alive(y.tasks[p]) && (p != 0 ==> StageOf(y.tasks[p].pc) != Over)
  {
    assert TaskOk(y, u) && ParentOk(y, u);
  }

  lemma ReapedIsOver(y: Sys, e: Step, t: nat)
    requires Inv(y) && Reaps(y, e, t)
    ensures t < |y.tasks| && StageOf(y.tasks[t].pc) == Over
  {
    hide SemsOk; hide LinksOk; hide FamilyOk;
    assert CpuOk(y, e.c) && TaskOk(y, Me(y, e.c)) && LocksOk(y, Me(y, e.c)) && TaskOk(y, t) && LocksOk(y, t);
  }

  lemma ForkSets(y: Sys, c: nat)
    requires Enabled(y, ForkMade(c))
    ensures InTask(y, c) && MyPc(y, c).FMade? && MyPc(y, c).i < |y.tasks| == |Next(y, ForkMade(c)).tasks|
    ensures MyPc(y, c).i != Me(y, c) ==> Next(y, ForkMade(c)).tasks[MyPc(y, c).i].parent == Me(y, c)
  {
    ForkMadeIs(y, c);
  }

  /** In every run a task made by fork has a living parent from then on, until it is freed: the task that
      forked it, as long as that has not been freed itself, or else task 0. */
  lemma {:induction false} ForkedHasParent(run: seq<Sys>, steps: seq<Step>, i: nat, j: nat, c: nat)
    requires IsRun(run, steps) && i < j < |run| && steps[i] == ForkMade(c)
    requires InTask(run[i], c) && MyPc(run[i], c).FMade?
    requires forall m :: i < m < j ==> !Reaps(run[m], steps[m], MyPc(run[i], c).i)
    ensures var u, t := MyPc(run[i], c).i, Me(run[i], c);
      && u < |run[j].tasks| == |run[i].tasks|
      && var p := run[j].tasks[u].parent;
         && (p == t || p == 0) && p != u && p < |run[j].tasks| && Alive(run[j].tasks[p])
         && (j == i + 1 ==> p == t)
         && (p == t != 0 ==> forall m :: i < m < j ==> !Reaps(run[m], steps[m], t))
  {
    hide Inv; hide Enabled; hide Next; hide Initial; hide Reaps;
    var u, t := MyPc(run[i], c).i, Me(run[i], c);
    var y, e := run[j - 1], steps[j - 1];
    assert Enabled(y, e) && run[j - 1 + 1] == Next(y, e);
    RunInv(run, steps, j - 1);
    RunInv(run, steps, j);
    InvParts(y);
    if j == i + 1 {
      ForkSets(y, c);
      ForkedOther(y, c);
    } else {
      ForkedHasParent(run, steps, i, j - 1, c);
      ParentStep(y, e, u);
      ParentLives(y, u);
      if y.tasks[u].parent == t != 0 && Reaps(y, e, t) {
        ReapedIsOver(y, e, t);
        assert false;
      }
    }
    ParentLives(run[j], u);
  }

  lemma InvParts(y: Sys)
    requires Inv(y)
    ensures Core(y) && SemsOk(y) && LinksOk(y)
  {
  }

  lemma ForkedOther(y: Sys, c: nat)
    requires Inv(y) && Enabled(y, ForkMade(c))
    ensures InTask(y, c) && MyPc(y, c).FMade? && MyPc(y, c).i != Me(y, c)
  {
    hide Core; hide SemsOk; hide LinksOk; hide FamilyOk; hide Next; hide Enabled;
    ForkMadeIs(y, c);
    CoreCpu(y, c);
  }

  // ---------------------------------------------------------------------------------------
  // Exit

  /** The children of `p` in entries below `x`. */
  ghost function KidsBelow(y: Sys, p: nat, x: nat): set<nat>
  {
    set u | 0 <= u < |y.tasks| && u < x && y.tasks[u].parent == p
  }

  lemma OneMoreKid(y: Sys, p: nat, x: nat)
    requires x < |y.tasks|
    ensures |KidsBelow(y, p, x + 1)| == |KidsBelow(y, p, x)| + (if y.tasks[x].parent == p then 1 else 0)
    ensures KidsBelow(y, p, 0) == {}
  {
    var before, after := KidsBelow(y, p, x), KidsBelow(y, p, x + 1);
    if y.tasks[x].parent == p {
      assert after == before + {x};
    } else {
      assert after == before;
    }
    assert KidsBelow(y, p, 0) == {};
  }

  lemma AllKids(y: Sys, p: nat, x: nat)
    requires x >= |y.tasks|
    ensures KidsBelow(y, p, x) == KidsBelow(y, p, |y.tasks|)
  {
  }

  /** The parents while task `p` is at entry `x` of reparent: its children below it are task 0's. */
  ghost predicate HandedBelow(y0: Sys, y: Sys, p: nat, x: nat)
  {
    && |y.tasks| == |y0.tasks| && |y.sems| == |y0.sems|
    && (forall u :: 0 <= u < |y.tasks| && y0.tasks[u].parent >= 0 ==>
         y.tasks[u].parent == if y0.tasks[u].parent == p && u < x then 0 else y0.tasks[u].parent)
    && (forall u :: 0 <= u < |y.tasks| && y0.tasks[u].parent < 0 ==> y.tasks[u].parent != p)
  }

  /** How often `sons_sem` of task `s` has been signalled for the exit of `p` so far: once for `p` itself, if
      it is the parent, and, if it is task 0, once for each child handed over. */
  ghost function Signals(y0: Sys, p: nat, s: nat, x: nat): nat
    requires p < |y0.tasks|
  {
    (if y0.tasks[p].parent == s then 1 else 0) + (if s == 0 then |KidsBelow(y0, p, x)| else 0)
  }

  ghost predicate Counted(y0: Sys, y: Sys, p: nat, s: nat, x: nat, pending: nat)
    requires p < |y0.tasks| && s < |y0.sems| == |y.sems|
  {
    y.sems[s].issued + pending == y0.sems[s].issued + Signals(y0, p, s, x)
  }

  function Pending(pc: Pc, s: nat): nat
  {
    if pc.VLock? && pc.s == s then 1 else 0
  }

  /** CPU `c` executes the exit that began in `y0`, and has wait_lock. */
  ghost predicate Exiting(y0: Sys, y: Sys, c: nat)
    requires InTask(y0, c)
  {
    && y.waitLock == c && InTask(y, c) && Me(y, c) == Me(y0, c) && StageOf(MyPc(y, c)).Upto?
    && var p, x := Me(y0, c), StageOf(MyPc(y, c)).j;
       HandedBelow(y0, y, p, x)
       && (MyPc(y, c).VLock? ==> MyPc(y, c).s < |y.tasks|)
       && forall s: nat :: s < |y0.tasks| && s < |y0.sems| && (s == 0 || s == y0.tasks[p].parent) ==>
            Counted(y0, y, p, s, x, Pending(MyPc(y, c), s))
  }

  /** The exit is over: every child is task 0's, and all signals have been given. */
  ghost predicate HandedOver(y0: Sys, y: Sys, c: nat)
    requires InTask(y0, c)
  {
    var p, n := Me(y0, c), |y0.tasks|;
    && HandedBelow(y0, y, p, n)
    && forall s: nat :: s < |y0.tasks| && s < |y0.sems| && (s == 0 || s == y0.tasks[p].parent) ==>
         Counted(y0, y, p, s, n, 0)
  }

  lemma ExitStarts(y: Sys, c: nat)
    requires Inv(y) && Enabled(y, Exit2(c))
    ensures InTask(y, c) && Exiting(y, Next(y, Exit2(c)), c)
  {
    hide Core; hide SemsOk; hide LinksOk; hide FamilyOk; hide Next; hide Enabled;
    Exit2Is(y, c);
    CoreCpu(y, c);
    OneMoreKid(y, Me(y, c), 0);
  }

  /** What has to stay for the exit to be where it was. */
  ghost predicate SameExit(y: Sys, y': Sys, c: nat)
    requires InTask(y, c)
  {
    && InTask(y', c) && Me(y', c) == Me(y, c) && y'.waitLock == y.waitLock
    && StageOf(MyPc(y', c)) == StageOf(MyPc(y, c))
    && (MyPc(y', c).VLock? ==> MyPc(y, c).VLock? && MyPc(y', c).s == MyPc(y, c).s)
    && |y'.tasks| == |y.tasks| && |y'.sems| == |y.sems|
    && (forall u :: 0 <= u < |y.tasks| && y.tasks[u].parent >= 0 ==> y'.tasks[u].parent == y.tasks[u].parent)
    && (forall u :: 0 <= u < |y.tasks| && y.tasks[u].parent < 0 ==> y'.tasks[u].parent != Me(y, c))
  }

  lemma ExitingKept(y0: Sys, y: Sys, y': Sys, c: nat)
    requires InTask(y0, c) && Exiting(y0, y, c) && SameExit(y, y', c)
    requires forall s: nat :: s < |y.tasks| && s < |y.sems| && (s == 0 || s == y0.tasks[Me(y0, c)].parent) ==>
      y'.sems[s].issued + Pending(MyPc(y', c), s) == y.sems[s].issued + Pending(MyPc(y, c), s)
    ensures Exiting(y0, y', c)
  {
    hide Signals; hide Pending; hide StageOf;
  }

  // A step of the exit itself

  lemma SignalGiven(y0: Sys, y: Sys, c: nat, s: nat)
    requires InTask(y0, c) && Exiting(y0, y, c) && Inv(y) && Enabled(y, V1(c, s))
    ensures Exiting(y0, Next(y, V1(c, s)), c)
  {
    hide Exiting; hide Inv; hide Next; hide Enabled;
    ExitFacts(y0, y, c);
    SignalSame(y, c, s);
    ExitingKept(y0, y, Next(y, V1(c, s)), c);
  }

  lemma ExitFacts(y0: Sys, y: Sys, c: nat)
    requires InTask(y0, c) && Exiting(y0, y, c) && Inv(y)
    ensures InTask(y, c) && Me(y, c) == Me(y0, c) && StageOf(MyPc(y, c)).Upto? && y.waitLock == c
    ensures Core(y) && SemsOk(y) && LinksOk(y) && 0 < |y.tasks| <= |y.sems|
  {
    CoreSizes(y);
  }

  lemma SignalSame(y: Sys, c: nat, s: nat)
    requires Core(y) && InTask(y, c) && StageOf(MyPc(y, c)).Upto? && Enabled(y, V1(c, s))
    ensures var y' := Next(y, V1(c, s));
      && SameExit(y, y', c)
      && forall r: nat :: r < |y.sems| ==>
           y'.sems[r].issued + Pending(MyPc(y', c), r) == y.sems[r].issued + Pending(MyPc(y, c), r)
  {
    hide Core; hide Next; hide Enabled; hide Tell;
    V1Is(y, c, s);
    TellFacts(y, c);
    CoreCpu(y, c);
  }

  lemma WakerGoesOn(y0: Sys, y: Sys, c: nat)
    requires InTask(y0, c) && Exiting(y0, y, c) && Inv(y) && Enabled(y, V2(c))
    ensures Exiting(y0, Next(y, V2(c)), c)
  {
    hide Exiting; hide Inv; hide Next; hide Enabled;
    ExitFacts(y0, y, c);
    WakerSame(y, c);
    ExitingKept(y0, y, Next(y, V2(c)), c);
  }

  lemma WakerSame(y: Sys, c: nat)
    requires Core(y) && SemsOk(y) && InTask(y, c) && StageOf(MyPc(y, c)).Upto? && Enabled(y, V2(c))
    ensures var y' := Next(y, V2(c));
      && SameExit(y, y', c)
      && forall r: nat :: r < |y.sems| ==>
           y'.sems[r].issued + Pending(MyPc(y', c), r) == y.sems[r].issued + Pending(MyPc(y, c), r)
  {
    hide Core; hide SemsOk; hide Next; hide Enabled;
    V2Is(y, c);
    CoreCpu(y, c);
    WakerFacts(y, Me(y, c));
  }

  lemma SignalsNext(y0: Sys, p: nat, x: nat)
    requires p < |y0.tasks|
    ensures forall s: nat :: x < |y0.tasks| ==>
      Signals(y0, p, s, x + 1) == Signals(y0, p, s, x) + (if s == 0 && y0.tasks[x].parent == p then 1 else 0)
    ensures forall s: nat :: x >= |y0.tasks| ==> Signals(y0, p, s, x) == Signals(y0, p, s, |y0.tasks|)
  {
    if x < |y0.tasks| { OneMoreKid(y0, p, x); } else { AllKids(y0, p, x); }
  }

  lemma OneHanded(y0: Sys, y: Sys, c: nat)
    requires InTask(y0, c) && Exiting(y0, y, c) && Inv(y) && Enabled(y, Reparent(c))
    ensures InTask(y, c) && MyPc(y, c).XScan?
    ensures var y' := Next(y, Reparent(c));
      if MyPc(y, c).j >= |y.tasks| then y'.waitLock == FREE && HandedOver(y0, y', c) else Exiting(y0, y', c)
  {
    hide Inv; hide Exiting; hide HandedOver; hide Next; hide Enabled;
    ExitFacts(y0, y, c);
    ReparentIs(y, c);
    if MyPc(y, c).j >= |y.tasks| {
      LastHanded(y0, y, c);
    } else {
      NextHanded(y0, y, c);
    }
  }

  lemma LastHanded(y0: Sys, y: Sys, c: nat)
    requires InTask(y0, c) && Exiting(y0, y, c) && Core(y) && Enabled(y, Reparent(c))
    requires InTask(y, c) && MyPc(y, c).XScan? && MyPc(y, c).j >= |y.tasks|
    ensures Next(y, Reparent(c)).waitLock == FREE && HandedOver(y0, Next(y, Reparent(c)), c)
  {
    SignalsNext(y0, Me(y0, c), MyPc(y, c).j);
    hide Signals; hide Core; hide Next; hide Enabled;
    ReparentIs(y, c);
    var y', p, x := Next(y, Reparent(c)), Me(y0, c), MyPc(y, c).j;
    forall s: nat | s < |y0.tasks| && s < |y0.sems| && (s == 0 || s == y0.tasks[p].parent)
      ensures Counted(y0, y', p, s, |y0.tasks|, 0)
    {
      assert Counted(y0, y, p, s, x, Pending(MyPc(y, c), s));
    }
  }

  lemma NextHanded(y0: Sys, y: Sys, c: nat)
    requires InTask(y0, c) && Exiting(y0, y, c) && Core(y) && LinksOk(y) && Enabled(y, Reparent(c))
    requires InTask(y, c) && MyPc(y, c).XScan? && MyPc(y, c).j < |y.tasks|
    ensures Exiting(y0, Next(y, Reparent(c)), c)
  {
    hide Core; hide LinksOk; hide Next; hide Enabled; hide HandedBelow; hide Counted;
    NextBelow(y0, y, c);
    NextCounted(y0, y, c);
    ReparentIs(y, c);
    CoreSizes(y);
  }

  lemma NextBelow(y0: Sys, y: Sys, c: nat)
    requires InTask(y0, c) && Exiting(y0, y, c) && LinksOk(y) && Enabled(y, Reparent(c))
    requires InTask(y, c) && MyPc(y, c).XScan? && MyPc(y, c).j < |y.tasks|
    ensures HandedBelow(y0, Next(y, Reparent(c)), Me(y0, c), MyPc(y, c).j + 1)
    ensures MyPc(y, c).j != Me(y, c) && y.tasks[MyPc(y, c).j].parent == Me(y, c) <==>
      y0.tasks[MyPc(y, c).j].parent == Me(y0, c)
  {
    hide LinksOk; hide Next; hide Enabled; hide Counted;
    ReparentIs(y, c);
    OwnParent(y0, y, c, MyPc(y, c).j);
  }

  lemma NextCounted(y0: Sys, y: Sys, c: nat)
    requires InTask(y0, c) && Exiting(y0, y, c) && LinksOk(y) && Enabled(y, Reparent(c))
    requires InTask(y, c) && MyPc(y, c).XScan? && MyPc(y, c).j < |y.tasks|
    ensures var y', p := Next(y, Reparent(c)), Me(y0, c);
      && |y'.sems| == |y0.sems| && InTask(y', c)
      && forall s: nat :: s < |y0.tasks| && s < |y0.sems| && (s == 0 || s == y0.tasks[p].parent) ==>
           Counted(y0, y', p, s, MyPc(y, c).j + 1, Pending(MyPc(y', c), s))
  {
    NextBelow(y0, y, c);
    var p, x, y' := Me(y, c), MyPc(y, c).j, Next(y, Reparent(c));
    hide LinksOk; hide Next; hide Enabled; hide Signals; hide KidsBelow;
    SignalsNext(y0, p, x);
    ReparentIs(y, c);
    forall s: nat | s < |y0.tasks| && s < |y0.sems| && (s == 0 || s == y0.tasks[p].parent)
      ensures Counted(y0, y', p, s, x + 1, Pending(MyPc(y', c), s))
    {
      assert Counted(y0, y, p, s, x, Pending(MyPc(y, c), s));
    }
  }

  /** A task is not its own child. */
  lemma OwnParent(y0: Sys, y: Sys, c: nat, x: nat)
    requires InTask(y0, c) && Exiting(y0, y, c) && LinksOk(y) && x < |y.tasks|
    ensures x == Me(y, c) ==> y.tasks[x].parent != x
  {
    assert ParentOk(y, x);
  }

  // Steps of others

  /** The CPU whose locks allow the step; none for a step from outside. */
  function Actor(y: Sys, e: Step): nat
  {
    if e.Wakeup? || e.Spawn? then |y.cpus| else e.c
  }

  /** Every step changes only what is its CPU's own, or protected by locks that CPU can have. */
  lemma StepOnlyBy(y: Sys, e: Step)
    requires Inv(y) && Enabled(y, e)
    ensures OnlyBy(y, Next(y, e), Actor(y, e))
  {
    hide Next; hide Enabled; hide OnlyBy; hide Core; hide SemsOk; hide LinksOk; hide FamilyOk;
    match e
    case SchedLock(c) => TouchesSchedLock(y, c);
    case SchedRun(c) => SwitchOnlyBy(y, e);
    case SchedBack(c) => SwitchOnlyBy(y, e);
    case Unlock(c) => TouchesUnlock(y, c);
    case Yield(c) => TouchesYield(y, c);
    case Swtch(c) => SwitchOnlyBy(y, e);
    case Acquire(c, g) => TouchesAcquire(y, c, g);
    case Release(c, g) => TouchesRelease(y, c, g);
    case Sleep(c, g, ch) => TouchesSleep(y, c, g, ch);
    case Retake(c) => TouchesRetake(y, c);
    case Wakeup(i, ch) => OutsideOnlyBy(y, e);
    case P1(c, s, k) => TouchesP1(y, c, s, k);
    case P2(c) => TouchesP2(y, c);
    case V1(c, s) => QueueHere(y, c, s); TouchesV1(y, c, s);
    case V2(c) => WakerHere(y, c); TouchesV2(y, c);
    case Exit1(c) => TouchesExit1(y, c);
    case Exit2(c) => TouchesExit2(y, c);
    case Reparent(c) => TouchesReparent(y, c);
    case Look(c) => TouchesLook(y, c);
    case Join(c) => TouchesJoin(y, c);
    case ForkLook(c) => TouchesForkLook(y, c);
    case ForkMade(c) => TouchesForkMade(y, c);
    case Spawn(i) => OutsideOnlyBy(y, e);
  }

  lemma QueueHere(y: Sys, c: nat, s: nat)
    requires SemsOk(y) && Enabled(y, V1(c, s))
    ensures s < |y.sems| && QueueOk(y, s)
  {
    V1Is(y, c, s);
  }

  lemma WakerHere(y: Sys, c: nat)
    requires SemsOk(y) && Enabled(y, V2(c))
    ensures c < |y.cpus| && y.cpus[c].at.p < |y.tasks| && WakerOk(y, y.cpus[c].at.p)
  {
    V2Is(y, c);
  }

  lemma SwitchOnlyBy(y: Sys, e: Step)
    requires Core(y) && Enabled(y, e) && (e.SchedRun? || e.SchedBack? || e.Swtch?)
    ensures OnlyBy(y, Next(y, e), e.c)
  {
    hide Core;
    CoreCpu(y, e.c);
  }

  lemma OutsideOnlyBy(y: Sys, e: Step)
    requires Core(y) && Enabled(y, e) && (e.Wakeup? || e.Spawn?)
    ensures OnlyBy(y, Next(y, e), |y.cpus|)
  {
    hide Core;
    CoreTask(y, e.i);
  }

  /** Without a V on it, the count of a living task's semaphore stays. */
  lemma IssuedStays(y: Sys, e: Step, s: nat)
    requires Enabled(y, e) && s < |y.tasks| && s < |y.sems| && y.tasks[s].st != DEAD && !(e.V1? && e.s == s)
    ensures |Next(y, e).sems| == |y.sems| && Next(y, e).sems[s].issued == y.sems[s].issued
  {
    hide Next; hide Enabled; hide Tell;
    if e.P1? {
      P1Is(y, e.c, e.s, e.k);
    } else if e.P2? {
      P2Is(y, e.c);
    } else if e.V1? {
      V1Is(y, e.c, e.s);
      TellFacts(y, e.c);
    } else if e.V2? {
      V2Is(y, e.c);
    } else if e.ForkLook? {
      ForkLookIs(y, e.c);
    } else {
      SemsUntouched(y, e);
    }
  }

  /** Only the task that has wait_lock signals a `sons_sem`. */
  lemma SignalsByHolder(y: Sys, d: nat, s: nat)
    requires Core(y) && Enabled(y, V1(d, s)) && s < |y.tasks|
    ensures y.waitLock == d
  {
    hide Core; hide Next; hide Enabled;
    V1Is(y, d, s);
    CoreCpu(y, d);
  }

  lemma Undisturbed(y0: Sys, y: Sys, e: Step, c: nat)
    requires InTask(y0, c) && Exiting(y0, y, c) && Inv(y) && Enabled(y, e) && Actor(y, e) != c
    ensures Exiting(y0, Next(y, e), c)
  {
    hide Exiting; hide Inv; hide Next; hide Enabled; hide SameExit;
    ExitFacts(y0, y, c);
    SameForOthers(y, e, c);
    AliveParents(y0, y, c);
    forall s: nat | s < |y.tasks| && s < |y.sems| && (s == 0 || s == y0.tasks[Me(y0, c)].parent)
      ensures Next(y, e).sems[s].issued == y.sems[s].issued
    {
      if e.V1? && e.s == s { SignalsByHolder(y, e.c, s); }
      IssuedStays(y, e, s);
    }
    ExitingKept(y0, y, Next(y, e), c);
  }

  lemma AliveParents(y0: Sys, y: Sys, c: nat)
    requires InTask(y0, c) && Exiting(y0, y, c) && Inv(y)
    ensures |y.tasks| > 0 && |y.tasks| == |y0.tasks| && y.tasks[0].st != DEAD
    ensures var q := y0.tasks[Me(y0, c)].parent; 0 <= q < |y.tasks| ==> y.tasks[q].st != DEAD
  {
    CoreCpu(y, c);
    hide SemsOk; hide FamilyOk; hide Core;
    assert ParentOk(y, Me(y0, c));
  }

  lemma SameForOthers(y: Sys, e: Step, c: nat)
    requires Inv(y) && Enabled(y, e) && InTask(y, c) && y.waitLock == c && Actor(y, e) != c
    ensures SameExit(y, Next(y, e), c) && MyPc(Next(y, e), c) == MyPc(y, c) && |Next(y, e).sems| == |y.sems|
  {
    hide Next; hide Enabled; hide SemsOk; hide LinksOk; hide FamilyOk; hide Core;
    StepOnlyBy(y, e);
    CoreCpu(y, c);
    NewChildren(y, e, c);
  }

  /** Nobody becomes a child of the task on CPU `c` without a step of that CPU, while it has wait_lock. */
  lemma NewChildren(y: Sys, e: Step, c: nat)
    requires Core(y) && SemsOk(y) && Enabled(y, e) && InTask(y, c) && y.waitLock == c && Actor(y, e) != c
    ensures |Next(y, e).tasks| == |y.tasks|
    ensures forall u :: 0 <= u < |y.tasks| && y.tasks[u].parent < 0 ==> Next(y, e).tasks[u].parent != Me(y, c)
  {
    hide Core; hide SemsOk; hide Next; hide Enabled;
    if LeavesParents(e) {
      forall u | 0 <= u < |y.tasks| ensures |Next(y, e).tasks| == |y.tasks| &&
          Next(y, e).tasks[u].parent == y.tasks[u].parent { ParentsStay(y, e, u); }
    } else if e.ForkMade? {
      ForkMadeIs(y, e.c);
      CoreCpu(y, e.c);
      CoreCpu(y, c);
    } else {
      if e.Join? { JoinIs(y, e.c); } else { ReparentIs(y, e.c); }
      CoreCpu(y, e.c);
    }
  }

  // ---------------------------------------------------------------------------------------

  lemma ExitStep(y0: Sys, y: Sys, e: Step, c: nat)
    requires InTask(y0, c) && Exiting(y0, y, c) && Inv(y) && Enabled(y, e)
    ensures Exiting(y0, Next(y, e), c) || (Next(y, e).waitLock == FREE && HandedOver(y0, Next(y, e), c))
  {
    hide Exiting; hide HandedOver; hide Inv; hide Next; hide Enabled;
    if Actor(y, e) != c {
      Undisturbed(y0, y, e, c);
    } else {
      OwnStep(y0, y, e, c);
      if e.V1? { SignalGiven(y0, y, c, e.s); } else if e.V2? { WakerGoesOn(y0, y, c); } else { OneHanded(y0, y, c); }
    }
  }

  lemma OwnStep(y0: Sys, y: Sys, e: Step, c: nat)
    requires InTask(y0, c) && Exiting(y0, y, c) && Inv(y) && Enabled(y, e) && Actor(y, e) == c
    ensures e == Reparent(c) || e == V2(c) || (e.V1? && e == V1(c, e.s))
  {
    ExitFacts(y0, y, c);
    hide Exiting; hide Inv;
  }

  lemma {:induction false} ExitGoesOn(run: seq<Sys>, steps: seq<Step>, i: nat, j: nat, c: nat)
    requires IsRun(run, steps) && i < j < |run| && steps[i] == Exit2(c)
    requires forall m :: i < m < j ==> run[m].waitLock != FREE
    ensures InTask(run[i], c)
    ensures Exiting(run[i], run[j], c) || (run[j].waitLock == FREE && HandedOver(run[i], run[j], c))
  {
    hide Exiting; hide HandedOver; hide Inv; hide Next; hide Enabled; hide Initial;
    var y, e := run[j - 1], steps[j - 1];
    assert Enabled(y, e) && run[j - 1 + 1] == Next(y, e);
    RunInv(run, steps, j - 1);
    if j == i + 1 {
      ExitStarts(y, c);
    } else {
      ExitGoesOn(run, steps, i, j - 1, c);
      ExitStep(run[i], y, e, c);
    }
  }

  /** In every run, when a task has begun to give its children away, then by the time that wait_lock is free
      again each of its children is task 0's child, all other tasks have the parents they had, its own
      parent has been signalled once, and task 0 once for every child. */
  lemma ExitHandsOver(run: seq<Sys>, steps: seq<Step>, i: nat, j: nat, c: nat, u: nat)
    requires IsRun(run, steps) && i < j < |run| && steps[i] == Exit2(c) && run[j].waitLock == FREE
    requires forall m :: i < m < j ==> run[m].waitLock != FREE
    ensures InTask(run[i], c) && |run[j].tasks| == |run[i].tasks| <= |run[i].sems| == |run[j].sems|
    ensures var p := Me(run[i], c);
      var q, kids := run[i].tasks[p].parent, set k | 0 <= k < |run[i].tasks| && run[i].tasks[k].parent == p;
      && (u < |run[i].tasks| && run[i].tasks[u].parent >= 0 ==>
            run[j].tasks[u].parent == if u in kids then 0 else run[i].tasks[u].parent)
      && (0 < q < |run[i].tasks| ==> run[j].sems[q].issued == run[i].sems[q].issued + 1)
      && run[j].sems[0].issued == run[i].sems[0].issued + |kids| + (if q == 0 then 1 else 0)
  {
    hide Inv; hide Enabled; hide Next; hide Initial;
    ExitGoesOn(run, steps, i, j, c);
    RunInv(run, steps, i);
    InvParts(run[i]);
    CoreSizes(run[i]);
    hide Core; hide SemsOk; hide LinksOk;
    var p := Me(run[i], c);
    assert KidsBelow(run[i], p, |run[i].tasks|) ==
      set k | 0 <= k < |run[i].tasks| && run[i].tasks[k].parent == p;
    assert Counted(run[i], run[j], p, 0, |run[i].tasks|, 0);
    var q := run[i].tasks[p].parent;
    if 0 < q < |run[i].tasks| { assert Counted(run[i], run[j], p, q, |run[i].tasks|, 0); }
  }

  // ---------------------------------------------------------------------------------------
  // Wakeup

  predicate AsleepOn(e: Task, ch: int)
  {
    e.st == SLEEPING && e.chan == ch
  }

  /** Task `i` goes to sleep on the channel. */
  predicate GoesToSleep(y: Sys, e: Step, i: nat, ch: int)
  {
    e.Sleep? && Enabled(y, e) && e.ch == ch && Me(y, e.c) == i
  }

  lemma AsleepBefore(y: Sys, e: Step, i: nat, ch: int)
    requires Inv(y) && Enabled(y, e) && ch != 0 && i < |y.tasks| == |Next(y, e).tasks|
    requires AsleepOn(Next(y, e).tasks[i], ch) && !GoesToSleep(y, e, i, ch)
    ensures AsleepOn(y.tasks[i], ch)
  {
    hide SemsOk; hide LinksOk; hide FamilyOk; hide Core; hide Next; hide Enabled;
    CoreTask(y, i);
    if BySpinlock(e) {
      AsleepByLock(y, e, i, ch);
    } else if e.V1? || e.V2? {
      AsleepInV(y, e, i, ch);
    } else if AtEntry(e) {
      AsleepAtEntry(y, e, i, ch);
    } else {
      AsleepElsewhere(y, e, i, ch);
    }
  }

  lemma AsleepByLock(y: Sys, e: Step, i: nat, ch: int)
    requires Core(y) && Enabled(y, e) && BySpinlock(e) && ch != 0 && i < |y.tasks| == |Next(y, e).tasks|
    requires AsleepOn(Next(y, e).tasks[i], ch) && !GoesToSleep(y, e, i, ch)
    ensures AsleepOn(y.tasks[i], ch)
  {
    hide Core; hide Next; hide Enabled;
    OthersStay(y, e, i);
    CoreTask(y, i);
    if i == Me(y, e.c) { MineAwake(y, e, ch); }
  }

  lemma MineAwake(y: Sys, e: Step, ch: int)
    requires Enabled(y, e) && BySpinlock(e) && ch != 0 && InTask(y, e.c) && TaskOk(y, Me(y, e.c))
    requires !GoesToSleep(y, e, Me(y, e.c), ch) && |Next(y, e).tasks| == |y.tasks|
    ensures AsleepOn(Next(y, e).tasks[Me(y, e.c)], ch) ==> AsleepOn(y.tasks[Me(y, e.c)], ch)
  {
  }

  lemma AsleepInV(y: Sys, e: Step, i: nat, ch: int)
    requires Core(y) && SemsOk(y) && Enabled(y, e) && (e.V1? || e.V2?) && i < |y.tasks| == |Next(y, e).tasks|
    requires AsleepOn(Next(y, e).tasks[i], ch)
    ensures AsleepOn(y.tasks[i], ch)
  {
    hide Core; hide SemsOk; hide Next; hide Enabled; hide Tell;
    if e.V1? {
      V1Is(y, e.c, e.s);
      TellFacts(y, e.c);
    } else {
      V2Is(y, e.c);
      CoreCpu(y, e.c);
      WakerFacts(y, Me(y, e.c));
    }
  }

  lemma AsleepAtEntry(y: Sys, e: Step, i: nat, ch: int)
    requires Enabled(y, e) && AtEntry(e) && i < |y.tasks| == |Next(y, e).tasks| && AsleepOn(Next(y, e).tasks[i], ch)
    ensures AsleepOn(y.tasks[i], ch)
  {
    hide Next; hide Enabled;
    if e.Look? {
      LookIs(y, e.c);
    } else if e.Join? {
      JoinIs(y, e.c);
    } else {
      AsleepInFork(y, e, i, ch);
    }
  }

  lemma AsleepInFork(y: Sys, e: Step, i: nat, ch: int)
    requires Enabled(y, e) && (e.ForkLook? || e.ForkMade? || e.Spawn?) && i < |y.tasks| == |Next(y, e).tasks|
    requires AsleepOn(Next(y, e).tasks[i], ch)
    ensures AsleepOn(y.tasks[i], ch)
  {
    hide Next; hide Enabled;
    if e.ForkLook? {
      ForkLookIs(y, e.c);
    } else if e.ForkMade? {
      ForkMadeIs(y, e.c);
    } else {
      SpawnIs(y, e.i);
    }
  }

  lemma AsleepElsewhere(y: Sys, e: Step, i: nat, ch: int)
    requires Core(y) && Enabled(y, e) && !BySpinlock(e) && !e.V1? && !e.V2? && !AtEntry(e) && ch != 0
    requires i < |y.tasks| == |Next(y, e).tasks| && AsleepOn(Next(y, e).tasks[i], ch)
    ensures AsleepOn(y.tasks[i], ch)
  {
    hide Core;
  }

  lemma SameTasks(y: Sys, e: Step)
    requires Inv(y) && Enabled(y, e)
    ensures |Next(y, e).tasks| == |y.tasks|
  {
    StepOnlyBy(y, e);
    hide Inv; hide Next; hide Enabled;
  }

  lemma Woken1(y: Sys, i: nat, ch: int)
    requires Enabled(y, Wakeup(i, ch))
    ensures i < |y.tasks| == |Next(y, Wakeup(i, ch)).tasks| && !AsleepOn(Next(y, Wakeup(i, ch)).tasks[i], ch)
    ensures AsleepOn(y.tasks[i], ch) ==> Next(y, Wakeup(i, ch)).tasks[i].st == RUNNABLE
  {
  }

  /** In every run, a task for which wakeup has come to its entry can run if it slept on that channel, and
      sleeps on it later only if it has gone to sleep since. */
  lemma {:induction false} WakeupWakes(run: seq<Sys>, steps: seq<Step>, m: nat, b: nat, i: nat, ch: int)
    requires IsRun(run, steps) && m < b < |run| && steps[m] == Wakeup(i, ch)
    ensures i < |run[m].tasks| == |run[b].tasks| == |run[m + 1].tasks|
    ensures AsleepOn(run[m].tasks[i], ch) ==> run[m + 1].tasks[i].st == RUNNABLE
    ensures AsleepOn(run[b].tasks[i], ch) ==> exists k :: m < k < b && GoesToSleep(run[k], steps[k], i, ch)
  {
    hide Inv; hide Next; hide Enabled; hide Initial; hide AsleepOn; hide GoesToSleep;
    assert Enabled(run[m], steps[m]) && run[m + 1] == Next(run[m], steps[m]);
    Woken1(run[m], i, ch);
    if b > m + 1 {
      WakeupWakes(run, steps, m, b - 1, i, ch);
      var y, e := run[b - 1], steps[b - 1];
      assert Enabled(y, e) && run[b - 1 + 1] == Next(y, e);
      RunInv(run, steps, b - 1);
      SameTasks(y, e);
      ChannelGiven(run[m], i, ch);
      if AsleepOn(run[b].tasks[i], ch) && !GoesToSleep(y, e, i, ch) { AsleepBefore(y, e, i, ch); }
    }
  }

  lemma ChannelGiven(y: Sys, i: nat, ch: int)
    requires Enabled(y, Wakeup(i, ch))
    ensures ch != 0
  {
  }

  // ---------------------------------------------------------------------------------------
  // Sleep

  /** Only a wakeup on its channel ends a sleep. */
  lemma AsleepAfter(y: Sys, e: Step, i: nat, ch: int)
    requires Inv(y) && Enabled(y, e) && ch != 0 && i < |y.tasks| == |Next(y, e).tasks|
    requires AsleepOn(y.tasks[i], ch) && e != Wakeup(i, ch)
    ensures AsleepOn(Next(y, e).tasks[i], ch)
  {
    hide SemsOk; hide LinksOk; hide FamilyOk; hide Core; hide Next; hide Enabled;
    CoreTask(y, i);
    if BySpinlock(e) {
      OthersStay(y, e, i);
      if i == Me(y, e.c) { MineRuns(y, e); }
    } else if e.V1? || e.V2? {
      StaysInV(y, e, i, ch);
    } else if AtEntry(e) {
      StaysAtEntry(y, e, i, ch);
    } else {
      StaysElsewhere(y, e, i, ch);
    }
  }

  lemma MineRuns(y: Sys, e: Step)
    requires Enabled(y, e) && BySpinlock(e) && InTask(y, e.c) && TaskOk(y, Me(y, e.c))
    ensures y.tasks[Me(y, e.c)].st == RUNNING
  {
  }

  lemma StaysInV(y: Sys, e: Step, i: nat, ch: int)
    requires Core(y) && SemsOk(y) && Enabled(y, e) && (e.V1? || e.V2?) && i < |y.tasks| == |Next(y, e).tasks| && ch != 0
    requires AsleepOn(y.tasks[i], ch)
    ensures AsleepOn(Next(y, e).tasks[i], ch)
  {
    hide Core; hide SemsOk; hide Next; hide Enabled; hide Tell;
    CoreTask(y, i);
    if e.V1? {
      V1Is(y, e.c, e.s);
      TellFacts(y, e.c);
    } else {
      V2Is(y, e.c);
      CoreCpu(y, e.c);
      WakerFacts(y, Me(y, e.c));
    }
  }

  lemma StaysAtEntry(y: Sys, e: Step, i: nat, ch: int)
    requires Core(y) && Enabled(y, e) && AtEntry(e) && i < |y.tasks| == |Next(y, e).tasks| && AsleepOn(y.tasks[i], ch)
    ensures AsleepOn(Next(y, e).tasks[i], ch)
  {
    hide Core; hide Next; hide Enabled;
    CoreTask(y, i);
    if e.Spawn? {
      SpawnIs(y, e.i);
    } else if e.Look? || e.Join? {
      StaysInWait(y, e, i, ch);
    } else {
      StaysInFork(y, e, i, ch);
    }
  }

  lemma StaysInWait(y: Sys, e: Step, i: nat, ch: int)
    requires Core(y) && Enabled(y, e) && (e.Look? || e.Join?) && i < |y.tasks| == |Next(y, e).tasks|
    requires AsleepOn(y.tasks[i], ch)
    ensures AsleepOn(Next(y, e).tasks[i], ch)
  {
    hide Core; hide Next; hide Enabled;
    CoreTask(y, i);
    if e.Look? { LookIs(y, e.c); } else { JoinIs(y, e.c); }
    CoreCpu(y, e.c);
  }

  lemma StaysInFork(y: Sys, e: Step, i: nat, ch: int)
    requires Core(y) && Enabled(y, e) && (e.ForkLook? || e.ForkMade?) && i < |y.tasks| == |Next(y, e).tasks|
    requires AsleepOn(y.tasks[i], ch)
    ensures AsleepOn(Next(y, e).tasks[i], ch)
  {
    hide Core; hide Next; hide Enabled;
    CoreTask(y, i);
    if e.ForkLook? { ForkLookIs(y, e.c); } else { ForkMadeIs(y, e.c); }
    CoreCpu(y, e.c);
  }

  lemma StaysElsewhere(y: Sys, e: Step, i: nat, ch: int)
    requires Core(y) && Enabled(y, e) && !BySpinlock(e) && !e.V1? && !e.V2? && !AtEntry(e) && e != Wakeup(i, ch)
    requires i < |y.tasks| == |Next(y, e).tasks| && AsleepOn(y.tasks[i], ch)
    ensures AsleepOn(Next(y, e).tasks[i], ch)
  {
    hide Core;
    CoreTask(y, i);
    if !e.Wakeup? { CoreCpu(y, e.c); }
  }

  lemma FallsAsleep(y: Sys, c: nat, g: nat, ch: int)
    requires Enabled(y, Sleep(c, g, ch))
    ensures InTask(y, c) && |Next(y, Sleep(c, g, ch)).tasks| == |y.tasks| && ch != 0
    ensures AsleepOn(Next(y, Sleep(c, g, ch)).tasks[Me(y, c)], ch)
    ensures g < |Next(y, Sleep(c, g, ch)).spins| && Next(y, Sleep(c, g, ch)).spins[g] == FREE
  {
  }

  /** In every run a task that calls sleep is asleep on the channel as soon as the lock it passed is free, and
      stays so until a wakeup on that channel comes to its entry; so no wakeup by a holder of the lock is missed. */
  lemma {:induction false} SleepsUntilWoken(run: seq<Sys>, steps: seq<Step>, i: nat, j: nat, c: nat, g: nat, ch: int)
    requires IsRun(run, steps) && i < j < |run| && steps[i] == Sleep(c, g, ch)
    requires InTask(run[i], c) && forall m :: i < m < j ==> steps[m] != Wakeup(Me(run[i], c), ch)
    ensures |run[j].tasks| == |run[i].tasks| && AsleepOn(run[j].tasks[Me(run[i], c)], ch)
    ensures g < |run[i + 1].spins| && run[i + 1].spins[g] == FREE
  {
    hide Inv; hide Next; hide Enabled; hide Initial; hide AsleepOn;
    var y, e := run[j - 1], steps[j - 1];
    assert Enabled(y, e) && run[j - 1 + 1] == Next(y, e);
    assert Enabled(run[i], steps[i]) && run[i + 1] == Next(run[i], steps[i]);
    FallsAsleep(run[i], c, g, ch);
    if j > i + 1 {
      SleepsUntilWoken(run, steps, i, j - 1, c, g, ch);
      RunInv(run, steps, j - 1);
      SameTasks(y, e);
      AsleepAfter(y, e, Me(run[i], c), ch);
    }
  }
}
