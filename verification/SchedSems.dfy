/** Every step keeps the invariant of the semaphores. */
module SchedSems {
  import opened SchedModel
  import opened SchedInv
  import opened SchedCore

  /** Nothing has changed in the queues, counts and roles. */
  ghost predicate SameRoles(y: Sys, y': Sys)
  {
    && |y'.tasks| == |y.tasks| && |y'.sems| == |y.sems|
    && (forall t :: 0 <= t < |y.tasks| ==> RoleOf(y'.tasks[t]) == RoleOf(y.tasks[t]))
    && (forall s :: 0 <= s < |y.sems| ==> y'.sems[s].(lock := 0) == y.sems[s].(lock := 0))
  }

  lemma RolesKept(y: Sys, y': Sys)
    requires SemsOk(y) && SameRoles(y, y')
    ensures SemsOk(y')
  {
    forall s | 0 <= s < |y.sems| ensures CountsOk(y'.sems[s]) && QueueOk(y', s) {
      assert CountsOk(y.sems[s]) && QueueOk(y, s);
      assert y'.sems[s].queue == y'.sems[s].(lock := 0).queue == y.sems[s].queue;
      assert CountsOk(y'.sems[s].(lock := 0));
    }
    forall t | 0 <= t < |y.tasks| ensures WaiterOk(y', t) && WakerOk(y', t) {
      assert WaiterOk(y, t) && WakerOk(y, t);
      var r := RoleOf(y.tasks[t]);
      if r.Sleeps? && BeingWoken(y, r.s, t) {
        var v :| 0 <= v < |y.tasks| && RoleOf(y.tasks[v]) == Wakes(r.s, t);
        assert RoleOf(y'.tasks[v]) == Wakes(r.s, t);
      }
    }
  }

  lemma SemsSchedLock(y: Sys, c: nat)
    requires Core(y) && SemsOk(y) && Enabled(y, SchedLock(c))
    ensures SemsOk(Next(y, SchedLock(c)))
  {
    hide Core; hide SemsOk;
    CoreCpu(y, c);
    RolesKept(y, Next(y, SchedLock(c)));
  }

  lemma SemsSchedRun(y: Sys, c: nat)
    requires Core(y) && SemsOk(y) && Enabled(y, SchedRun(c))
    ensures SemsOk(Next(y, SchedRun(c)))
  {
    hide Core; hide SemsOk;
    CoreCpu(y, c);
    RolesKept(y, Next(y, SchedRun(c)));
  }

  lemma SemsSchedBack(y: Sys, c: nat)
    requires Core(y) && SemsOk(y) && Enabled(y, SchedBack(c))
    ensures SemsOk(Next(y, SchedBack(c)))
  {
    hide Core; hide SemsOk;
    CoreCpu(y, c);
    RolesKept(y, Next(y, SchedBack(c)));
  }

  lemma SemsUnlock(y: Sys, c: nat)
    requires Core(y) && SemsOk(y) && Enabled(y, Unlock(c))
    ensures SemsOk(Next(y, Unlock(c)))
  {
    hide Core; hide SemsOk;
    CoreCpu(y, c);
    RolesKept(y, Next(y, Unlock(c)));
  }

  lemma SemsYield(y: Sys, c: nat)
    requires Core(y) && SemsOk(y) && Enabled(y, Yield(c))
    ensures SemsOk(Next(y, Yield(c)))
  {
    hide Core; hide SemsOk;
    CoreCpu(y, c);
    RolesKept(y, Next(y, Yield(c)));
  }

  lemma SemsSwtch(y: Sys, c: nat)
    requires Core(y) && SemsOk(y) && Enabled(y, Swtch(c))
    ensures SemsOk(Next(y, Swtch(c)))
  {
    hide Core; hide SemsOk;
    CoreCpu(y, c);
    RolesKept(y, Next(y, Swtch(c)));
  }

  lemma SemsAcquire(y: Sys, c: nat, g: nat)
    requires Core(y) && SemsOk(y) && Enabled(y, Acquire(c, g))
    ensures SemsOk(Next(y, Acquire(c, g)))
  {
    hide Core; hide SemsOk;
    CoreCpu(y, c);
    RolesKept(y, Next(y, Acquire(c, g)));
  }

  lemma SemsRelease(y: Sys, c: nat, g: nat)
    requires Core(y) && SemsOk(y) && Enabled(y, Release(c, g))
    ensures SemsOk(Next(y, Release(c, g)))
  {
    hide Core; hide SemsOk;
    CoreCpu(y, c);
    RolesKept(y, Next(y, Release(c, g)));
  }

  lemma SemsSleep(y: Sys, c: nat, g: nat, ch: int)
    requires Core(y) && SemsOk(y) && Enabled(y, Sleep(c, g, ch))
    ensures SemsOk(Next(y, Sleep(c, g, ch)))
  {
    hide Core; hide SemsOk;
    CoreCpu(y, c);
    RolesKept(y, Next(y, Sleep(c, g, ch)));
  }

  lemma SemsRetake(y: Sys, c: nat)
    requires Core(y) && SemsOk(y) && Enabled(y, Retake(c))
    ensures SemsOk(Next(y, Retake(c)))
  {
    hide Core; hide SemsOk;
    CoreCpu(y, c);
    RolesKept(y, Next(y, Retake(c)));
  }

  lemma SemsWakeup(y: Sys, i: nat, ch: int)
    requires Core(y) && SemsOk(y) && Enabled(y, Wakeup(i, ch))
    ensures SemsOk(Next(y, Wakeup(i, ch)))
  {
    hide Core; hide SemsOk;
    CoreTask(y, i);
    RolesKept(y, Next(y, Wakeup(i, ch)));
  }

  lemma SemsExit1(y: Sys, c: nat)
    requires Core(y) && SemsOk(y) && Enabled(y, Exit1(c))
    ensures SemsOk(Next(y, Exit1(c)))
  {
    hide Core; hide SemsOk;
    CoreCpu(y, c);
    RolesKept(y, Next(y, Exit1(c)));
  }

  lemma SemsExit2(y: Sys, c: nat)
    requires Core(y) && SemsOk(y) && Enabled(y, Exit2(c))
    ensures SemsOk(Next(y, Exit2(c)))
  {
    hide Core; hide SemsOk;
    CoreCpu(y, c);
    RolesKept(y, Next(y, Exit2(c)));
  }

  lemma SemsReparent(y: Sys, c: nat)
    requires Core(y) && SemsOk(y) && Enabled(y, Reparent(c))
    ensures SemsOk(Next(y, Reparent(c)))
  {
    hide Core; hide SemsOk;
    CoreCpu(y, c);
    RolesKept(y, Next(y, Reparent(c)));
  }

  lemma SemsLook(y: Sys, c: nat)
    requires Core(y) && SemsOk(y) && Enabled(y, Look(c))
    ensures SemsOk(Next(y, Look(c)))
  {
    hide Core; hide SemsOk; hide Next; hide Enabled;
    LookIs(y, c);
    CoreCpu(y, c);
    CoreTask(y, MyPc(y, c).i);
    RolesKept(y, Next(y, Look(c)));
  }

  lemma SemsJoin(y: Sys, c: nat)
    requires Core(y) && SemsOk(y) && Enabled(y, Join(c))
    ensures SemsOk(Next(y, Join(c)))
  {
    hide Core; hide SemsOk; hide Next; hide Enabled;
    JoinIs(y, c);
    CoreCpu(y, c);
    CoreTask(y, y.tasks[y.cpus[c].at.p].pc.i);
    RolesKept(y, Next(y, Join(c)));
  }

  lemma SemsForkMade(y: Sys, c: nat)
    requires Core(y) && SemsOk(y) && Enabled(y, ForkMade(c))
    ensures SemsOk(Next(y, ForkMade(c)))
  {
    hide Core; hide SemsOk; hide Next; hide Enabled;
    ForkMadeIs(y, c);
    CoreCpu(y, c);
    CoreTask(y, MyPc(y, c).i);
    RolesKept(y, Next(y, ForkMade(c)));
  }

  lemma SemsSpawn(y: Sys, i: nat)
    requires Core(y) && SemsOk(y) && Enabled(y, Spawn(i))
    ensures SemsOk(Next(y, Spawn(i)))
  {
    hide Core; hide SemsOk;
    CoreTask(y, i);
    RolesKept(y, Next(y, Spawn(i)));
  }
  // ---------------------------------------------------------------------------------------
  // What can happen to a queue

  /** Only semaphore `s` and the roles of `t` and `u` have changed. */
  ghost predicate OnlyRoles(y: Sys, y': Sys, s: nat, t: nat, u: nat)
  {
    && |y'.tasks| == |y.tasks| && |y'.sems| == |y.sems| && s < |y.sems| && t < |y.tasks| && u < |y.tasks|
    && (forall v :: 0 <= v < |y.tasks| && v != t && v != u ==> RoleOf(y'.tasks[v]) == RoleOf(y.tasks[v]))
    && (forall m :: 0 <= m < |y.sems| && m != s ==> y'.sems[m] == y.sems[m])
  }

  /** The witness for a task being woken survives unless it is the waker `t` that changes. */
  lemma StillWoken(y: Sys, y': Sys, s: nat, v: nat, t: nat)
    requires |y'.tasks| == |y.tasks| && t < |y.tasks| && BeingWoken(y, s, v)
    requires forall x :: 0 <= x < |y.tasks| && RoleOf(y.tasks[x]) == Wakes(s, v) ==> RoleOf(y'.tasks[x]) == Wakes(s, v)
    ensures BeingWoken(y', s, v)
  {
    var x :| 0 <= x < |y.tasks| && RoleOf(y.tasks[x]) == Wakes(s, v);
    assert RoleOf(y'.tasks[x]) == Wakes(s, v);
  }

  lemma EnqueueKeeps(y: Sys, y': Sys, s: nat, t: nat)
    requires SemsOk(y) && OnlyRoles(y, y', s, t, t) && RoleOf(y.tasks[t]) == Plain && RoleOf(y'.tasks[t]) == Queues(s)
    requires CountsOk(y'.sems[s]) && y'.sems[s].queue == y.sems[s].queue + [t]
    ensures SemsOk(y')
  {
    hide RoleOf; hide CountsOk;
    assert QueueOk(y, s);
    forall m | 0 <= m < |y.sems| ensures CountsOk(y'.sems[m]) && QueueOk(y', m) {
      assert CountsOk(y.sems[m]) && QueueOk(y, m);
    }
    forall v | 0 <= v < |y.tasks| ensures WaiterOk(y', v) && WakerOk(y', v) {
      assert WaiterOk(y, v) && WakerOk(y, v);
      var r := RoleOf(y.tasks[v]);
      if r.Sleeps? && BeingWoken(y, r.s, v) { StillWoken(y, y', r.s, v, t); }
    }
  }

  lemma FallAsleepKeeps(y: Sys, y': Sys, s: nat, t: nat)
    requires SemsOk(y) && OnlyRoles(y, y', s, t, t) && RoleOf(y.tasks[t]) == Queues(s) &&
      RoleOf(y'.tasks[t]) == Sleeps(s)
    requires CountsOk(y'.sems[s]) && y'.sems[s].queue == y.sems[s].queue
    ensures SemsOk(y')
  {
    hide RoleOf; hide CountsOk;
    assert WaiterOk(y, t);
    forall m | 0 <= m < |y.sems| ensures CountsOk(y'.sems[m]) && QueueOk(y', m) {
      assert CountsOk(y.sems[m]) && QueueOk(y, m);
    }
    forall v | 0 <= v < |y.tasks| ensures WaiterOk(y', v) && WakerOk(y', v) {
      assert WaiterOk(y, v) && WakerOk(y, v);
      var r := RoleOf(y.tasks[v]);
      if r.Sleeps? && BeingWoken(y, r.s, v) { StillWoken(y, y', r.s, v, t); }
    }
  }

  lemma PopKeeps(y: Sys, y': Sys, s: nat, t: nat)
    requires SemsOk(y) && OnlyRoles(y, y', s, t, t) && y.sems[s].queue != [] && y.sems[s].queue[0] < |y.tasks|
    requires var u := y.sems[s].queue[0];
      && u != t && RoleOf(y.tasks[t]) == Plain && RoleOf(y'.tasks[t]) == Wakes(s, u) && RoleOf(y.tasks[u]) == Sleeps(s)
    requires CountsOk(y'.sems[s]) && y'.sems[s].queue == y.sems[s].queue[1..]
    ensures SemsOk(y')
  {
    hide RoleOf; hide CountsOk;
    var u := y.sems[s].queue[0];
    assert QueueOk(y, s);
    forall m | 0 <= m < |y.sems| ensures CountsOk(y'.sems[m]) && QueueOk(y', m) {
      assert CountsOk(y.sems[m]) && QueueOk(y, m);
    }
    forall v | 0 <= v < |y.tasks| ensures WaiterOk(y', v) && WakerOk(y', v) {
      assert WaiterOk(y, v) && WakerOk(y, v);
      var r := RoleOf(y.tasks[v]);
      if r.Sleeps? && BeingWoken(y, r.s, v) { StillWoken(y, y', r.s, v, t); }
      if v == u { assert BeingWoken(y', s, u); }
      assert y.sems[s].queue == [u] + y.sems[s].queue[1..];
    }
  }

  lemma WakeKeeps(y: Sys, y': Sys, s: nat, t: nat, u: nat)
    requires SemsOk(y) && OnlyRoles(y, y', s, t, u) && t != u
    requires RoleOf(y.tasks[t]) == Wakes(s, u) && RoleOf(y'.tasks[t]) == Plain && RoleOf(y'.tasks[u]) == Plain
    requires forall v :: 0 <= v < |y.tasks| && RoleOf(y.tasks[v]).Wakes? && RoleOf(y.tasks[v]).s == s ==> v == t
    requires CountsOk(y'.sems[s]) && y'.sems[s].queue == y.sems[s].queue
    ensures SemsOk(y')
  {
    hide RoleOf; hide CountsOk;
    assert WakerOk(y, t);
    forall m | 0 <= m < |y.sems| ensures CountsOk(y'.sems[m]) && QueueOk(y', m) {
      assert CountsOk(y.sems[m]) && QueueOk(y, m);
    }
    forall v | 0 <= v < |y.tasks| ensures WaiterOk(y', v) && WakerOk(y', v) {
      assert WaiterOk(y, v) && WakerOk(y, v);
      var r := RoleOf(y.tasks[v]);
      if r.Sleeps? && BeingWoken(y, r.s, v) && v != u { StillWoken(y, y', r.s, v, t); }
    }
  }

  /** A change of the counts of `s`, or of an unused semaphore altogether. */
  lemma CountsKeep(y: Sys, y': Sys, s: nat)
    requires SemsOk(y) && |y'.tasks| == |y.tasks| && |y'.sems| == |y.sems| && s < |y.sems|
    requires forall v :: 0 <= v < |y.tasks| ==> RoleOf(y'.tasks[v]) == RoleOf(y.tasks[v])
    requires forall m :: 0 <= m < |y.sems| && m != s ==> y'.sems[m] == y.sems[m]
    requires CountsOk(y'.sems[s]) && y'.sems[s].queue == y.sems[s].queue
    ensures SemsOk(y')
  {
    hide RoleOf; hide CountsOk;
    forall m | 0 <= m < |y.sems| ensures CountsOk(y'.sems[m]) && QueueOk(y', m) {
      assert CountsOk(y.sems[m]) && QueueOk(y, m);
    }
    forall v | 0 <= v < |y.tasks| ensures WaiterOk(y', v) && WakerOk(y', v) {
      assert WaiterOk(y, v) && WakerOk(y, v);
      var r := RoleOf(y.tasks[v]);
      if r.Sleeps? && BeingWoken(y, r.s, v) { StillWoken(y, y', r.s, v, v); }
    }
  }

  // ---------------------------------------------------------------------------------------
  // The steps of the semaphores themselves

  lemma SemFacts(y: Sys, s: nat)
    requires SemsOk(y) && s < |y.sems|
    ensures CountsOk(y.sems[s]) && QueueOk(y, s)
  {
  }

  lemma SemsP1(y: Sys, c: nat, s: nat, k: Pc)
    requires Core(y) && SemsOk(y) && Enabled(y, P1(c, s, k))
    ensures SemsOk(Next(y, P1(c, s, k)))
  {
    hide Core; hide SemsOk; hide QueueOk;
    CoreCpu(y, c);
    SemFacts(y, s);
    var y', t := Next(y, P1(c, s, k)), y.cpus[c].at.p;
    if y.sems[s].value - 1 < 0 {
      assert y.sems[s].arrivals + [t] == y.sems[s].releases + (y.sems[s].queue + [t]);
      EnqueueKeeps(y, y', s, t);
    } else {
      CountsKeep(y, y', s);
    }
  }

  lemma SemsP2(y: Sys, c: nat)
    requires Core(y) && SemsOk(y) && Enabled(y, P2(c))
    ensures SemsOk(Next(y, P2(c)))
  {
    hide Core; hide SemsOk; hide QueueOk;
    CoreCpu(y, c);
    var y', t := Next(y, P2(c)), y.cpus[c].at.p;
    SemFacts(y, y.tasks[t].pc.s);
    FallAsleepKeeps(y, y', y.tasks[t].pc.s, t);
  }

  /** The first in the queue of a semaphore that nobody has locked is asleep. */
  lemma FirstSleeps(y: Sys, s: nat)
    requires Core(y) && SemsOk(y) && s < |y.sems| && y.sems[s].lock == FREE && y.sems[s].queue != []
    ensures y.sems[s].queue[0] < |y.tasks| && RoleOf(y.tasks[y.sems[s].queue[0]]) == Sleeps(s)
  {
    assert QueueOk(y, s);
    var u := y.sems[s].queue[0];
    assert TaskOk(y, u) && LocksOk(y, u);
  }

  lemma SemsV1(y: Sys, c: nat, s: nat)
    requires Core(y) && SemsOk(y) && Enabled(y, V1(c, s))
    ensures SemsOk(Next(y, V1(c, s)))
  {
    if y.sems[s].value < 0 {
      V1Pops(y, c, s);
    } else {
      V1Counts(y, c, s);
    }
  }

  lemma V1Pops(y: Sys, c: nat, s: nat)
    requires Core(y) && SemsOk(y) && Enabled(y, V1(c, s)) && y.sems[s].value < 0
    ensures SemsOk(Next(y, V1(c, s)))
  {
    hide Core; hide SemsOk; hide QueueOk; hide Tell;
    CoreCpu(y, c);
    TellFacts(y, c);
    SemFacts(y, s);
    var m := y.sems[s];
    FirstSleeps(y, s);
    assert m.arrivals == (m.releases + [m.queue[0]]) + m.queue[1..];
    PopKeeps(y, Next(y, V1(c, s)), s, y.cpus[c].at.p);
  }

  lemma V1Counts(y: Sys, c: nat, s: nat)
    requires Core(y) && SemsOk(y) && Enabled(y, V1(c, s)) && y.sems[s].value >= 0
    ensures SemsOk(Next(y, V1(c, s)))
  {
    hide Core; hide SemsOk; hide QueueOk; hide Tell;
    CoreCpu(y, c);
    TellFacts(y, c);
    SemFacts(y, s);
    CountsKeep(y, Next(y, V1(c, s)), s);
  }

  /** Only one task at a time is in the middle of a V on `s`. */
  lemma OneWaker(y: Sys, s: nat, t: nat)
    requires Core(y) && SemsOk(y) && t < |y.tasks| && s < |y.sems| && RoleOf(y.tasks[t]).Wakes? &&
      RoleOf(y.tasks[t]).s == s
    ensures WakerOk(y, t)
    ensures forall v :: 0 <= v < |y.tasks| && RoleOf(y.tasks[v]).Wakes? && RoleOf(y.tasks[v]).s == s ==> v == t
  {
    assert TaskOk(y, t) && LocksOk(y, t);
    forall v | 0 <= v < |y.tasks| && RoleOf(y.tasks[v]).Wakes? && RoleOf(y.tasks[v]).s == s ensures v == t {
      assert TaskOk(y, v) && LocksOk(y, v);
    }
  }

  lemma SemsV2(y: Sys, c: nat)
    requires Core(y) && SemsOk(y) && Enabled(y, V2(c))
    ensures SemsOk(Next(y, V2(c)))
  {
    hide Core; hide SemsOk; hide QueueOk;
    CoreCpu(y, c);
    var y', t := Next(y, V2(c)), y.cpus[c].at.p;
    OneWaker(y, y.tasks[t].pc.s, t);
    SemFacts(y, y.tasks[t].pc.s);
    WakeKeeps(y, y', y.tasks[t].pc.s, t, y.tasks[t].pc.u);
  }

  /** Nobody waits on the semaphore of a dead task. */
  lemma DeadQueue(y: Sys, i: nat)
    requires Core(y) && SemsOk(y) && i < |y.tasks| && y.tasks[i].st == DEAD
    ensures i < |y.sems| && y.sems[i].queue == []
  {
    assert QueueOk(y, i) && TaskOk(y, i);
    var q := y.sems[i].queue;
    assert q != [] ==> q[0] < |y.tasks| && RoleOf(y.tasks[q[0]]) in {Queues(i), Sleeps(i)};
    forall u | 0 <= u < |y.tasks| ensures RoleOf(y.tasks[u]) !in {Queues(i), Sleeps(i)} { assert TaskOk(y, u); }
  }

  lemma SemsForkLook(y: Sys, c: nat)
    requires Core(y) && SemsOk(y) && Enabled(y, ForkLook(c))
    ensures SemsOk(Next(y, ForkLook(c)))
  {
    hide Core; hide SemsOk; hide QueueOk; hide Next; hide Enabled;
    ForkLookIs(y, c);
    CoreCpu(y, c);
    var y', t := Next(y, ForkLook(c)), y.cpus[c].at.p;
    var i := if y.tasks[t].pc.FLook? && y.tasks[t].pc.i < |y.tasks| then y.tasks[t].pc.i else t;
    CoreTask(y, i);
    if y.tasks[i].st == DEAD {
      DeadQueue(y, i);
      CountsKeep(y, y', i);
    } else {
      RolesKept(y, y');
    }
  }
}
