/** Whom the scheduler looks at: every CPU goes round the table of tasks. */
module SchedTurns {
  import opened SchedModel
  import opened SchedInv
  import opened SchedCore
  import opened SchedRuns
  import opened SchedExit

  /** CPU `c` is still busy with entry `p`, or about to look at the next one. */
  predicate BusyWith(y: Sys, c: nat, p: nat)
  {
    c < |y.cpus| && p < |y.tasks| &&
    match y.cpus[c].at
    case At(q) => q == (p + 1) % |y.tasks|
    case Got(q) => q == p
    case In(q) => q == p
    case Out(q) => q == p
  }

  lemma LookStep(y: Sys, c: nat)
    requires Enabled(y, SchedLock(c))
    ensures c < |y.cpus| && y.cpus[c].at.p < |y.tasks| && BusyWith(Next(y, SchedLock(c)), c, y.cpus[c].at.p)
    ensures var p := y.cpus[c].at.p;
      Next(y, SchedLock(c)).cpus[c].at ==
        if y.tasks[p].named && y.tasks[p].st == RUNNABLE then Got(p) else At((p + 1) % |y.tasks|)
  {
  }

  lemma BusyStep(y: Sys, e: Step, c: nat, p: nat)
    requires Inv(y) && Enabled(y, e) && BusyWith(y, c, p) && e != SchedLock(c)
    ensures BusyWith(Next(y, e), c, p)
  {
    hide Inv; hide Next; hide Enabled;
    StepOnlyBy(y, e);
    if Actor(y, e) == c { OwnTurn(y, e, p); }
  }

  lemma OwnTurn(y: Sys, e: Step, p: nat)
    requires Enabled(y, e) && !e.Wakeup? && !e.Spawn? && !e.SchedLock? && BusyWith(y, e.c, p)
    requires OnlyBy(y, Next(y, e), e.c)
    ensures BusyWith(Next(y, e), e.c, p)
  {
    hide OnlyBy; hide Next; hide Enabled;
    if e.SchedRun? || e.SchedBack? || e.Swtch? { SwitchTurn(y, e, p); } else { SamePlace(y, e); }
  }

  lemma SwitchTurn(y: Sys, e: Step, p: nat)
    requires Enabled(y, e) && (e.SchedRun? || e.SchedBack? || e.Swtch?) && BusyWith(y, e.c, p)
    ensures BusyWith(Next(y, e), e.c, p)
  {
  }

  lemma SamePlace(y: Sys, e: Step)
    requires Enabled(y, e) && !e.Wakeup? && !e.Spawn? && !e.SchedLock? && !e.SchedRun? && !e.SchedBack? && !e.Swtch?
    ensures |Next(y, e).tasks| == |y.tasks| && |Next(y, e).cpus| == |y.cpus|
    ensures e.c < |y.cpus| && Next(y, e).cpus[e.c].at == y.cpus[e.c].at
  {
    hide Next; hide Enabled; hide Tell;
    if BySpinlock(e) {
      SamePlaceLocking(y, e);
    } else if e.V1? {
      V1Is(y, e.c, e.s);
      TellFacts(y, e.c);
    } else if e.V2? {
      V2Is(y, e.c);
      WithinV2(y, e.c);
    } else if AtEntry(e) {
      SamePlaceAtEntry(y, e);
    } else {
      SamePlaceElsewhere(y, e);
    }
  }

  lemma WithinV2(y: Sys, c: nat)
    requires Enabled(y, V2(c))
    ensures InTask(y, c) && MyPc(y, c).VFound? && MyPc(y, c).u < |y.tasks| && MyPc(y, c).s < |y.sems|
  {
  }

  lemma SamePlaceLocking(y: Sys, e: Step)
    requires Enabled(y, e) && BySpinlock(e)
    ensures |Next(y, e).tasks| == |y.tasks| && |Next(y, e).cpus| == |y.cpus|
    ensures e.c < |y.cpus| && Next(y, e).cpus[e.c].at == y.cpus[e.c].at
  {
  }

  lemma SamePlaceAtEntry(y: Sys, e: Step)
    requires Enabled(y, e) && AtEntry(e) && !e.Spawn?
    ensures |Next(y, e).tasks| == |y.tasks| && |Next(y, e).cpus| == |y.cpus|
    ensures e.c < |y.cpus| && Next(y, e).cpus[e.c].at == y.cpus[e.c].at
  {
    hide Next; hide Enabled;
    if e.Look? {
      LookIs(y, e.c);
    } else if e.Join? {
      JoinIs(y, e.c);
    } else if e.ForkLook? {
      ForkLookIs(y, e.c);
    } else {
      ForkMadeIs(y, e.c);
    }
  }

  lemma SamePlaceElsewhere(y: Sys, e: Step)
    requires Enabled(y, e) && (e.Unlock? || e.Exit1? || e.Exit2? || e.Reparent?)
    ensures |Next(y, e).tasks| == |y.tasks| && |Next(y, e).cpus| == |y.cpus|
    ensures e.c < |y.cpus| && Next(y, e).cpus[e.c].at == y.cpus[e.c].at
  {
  }

  /** In every run the entries that a CPU looks at follow one another around the table; it takes an entry
      exactly if its task is named and can run. */
  lemma {:induction false} LooksInTurn(run: seq<Sys>, steps: seq<Step>, a: nat, b: nat, c: nat)
    requires IsRun(run, steps) && a < b < |run| && steps[a] == SchedLock(c)
    requires forall m :: a < m < b ==> steps[m] != SchedLock(c)
    ensures c < |run[a].cpus| && run[a].cpus[c].at.At? && run[a].cpus[c].at.p < |run[a].tasks| == |run[b].tasks|
    ensures c < |run[b].cpus|
    ensures var p := run[a].cpus[c].at.p;
      && (run[b].cpus[c].at.At? ==> run[b].cpus[c].at.p == (p + 1) % |run[a].tasks|)
      && (!run[b].cpus[c].at.At? ==> run[b].cpus[c].at.p == p)
      && (run[a + 1].cpus[c].at.Got? <==> run[a].tasks[p].named && run[a].tasks[p].st == RUNNABLE)
  {
    hide Inv; hide Enabled; hide Next; hide Initial;
    TurnsFrom(run, steps, a, b, c);
    assert Enabled(run[a], steps[a]) && run[a + 1] == Next(run[a], steps[a]);
    Looking(run[a], c);
    LookStep(run[a], c);
  }

  lemma Looking(y: Sys, c: nat)
    requires Enabled(y, SchedLock(c))
    ensures c < |y.cpus| && y.cpus[c].at.At? && y.cpus[c].at.p < |y.tasks|
    ensures |Next(y, SchedLock(c)).tasks| == |y.tasks| && |Next(y, SchedLock(c)).cpus| == |y.cpus|
  {
  }

  lemma {:induction false} TurnsFrom(run: seq<Sys>, steps: seq<Step>, a: nat, b: nat, c: nat)
    requires IsRun(run, steps) && a < b < |run| && steps[a] == SchedLock(c)
    requires forall m :: a < m < b ==> steps[m] != SchedLock(c)
    ensures c < |run[a].cpus| && BusyWith(run[b], c, run[a].cpus[c].at.p) && |run[b].tasks| == |run[a].tasks|
  {
    hide Inv; hide Enabled; hide Next; hide Initial;
    var y, e := run[b - 1], steps[b - 1];
    assert Enabled(y, e) && run[b - 1 + 1] == Next(y, e);
    if b == a + 1 {
      Looking(y, c);
      LookStep(y, c);
    } else {
      TurnsFrom(run, steps, a, b - 1, c);
      RunInv(run, steps, b - 1);
      SameTasks(y, e);
      BusyStep(y, e, c, run[a].cpus[c].at.p);
    }
  }
}
