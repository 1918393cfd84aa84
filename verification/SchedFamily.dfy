/** Every step keeps the account of zombies and signals. */
module SchedFamily {
  import opened Common
  import opened SchedModel
  import opened SchedInv
  import opened SchedCore
  import opened SchedSems
  import opened SchedLinks

  /** No zombie has come or gone, no unit either, and every scan is where it was. */
  ghost predicate SameFamily(y: Sys, y': Sys)
    requires |y.tasks| <= |y.sems|
  {
    && |y'.tasks| == |y.tasks| && |y'.sems| == |y.sems|
    && (forall c :: 0 <= c < |y.tasks| ==> SameChild(y.tasks[c], y'.tasks[c]))
    && (forall p :: 0 <= p < |y.tasks| ==> ScanAt(y', p) == ScanAt(y, p) && Units(y'.sems[p]) == Units(y.sems[p]))
  }

  predicate SameChild(e: Task, e': Task)
  {
    && e'.told == e.told && (e.told ==> e'.parent == e.parent && e'.st == e.st)
    && (e'.st == ZOMBIE && e'.parent >= 0 && HasTold(e'.pc) ==> e.st == ZOMBIE && e.parent >= 0 && HasTold(e.pc))
    && (e.pc.VLock? ==> e'.pc == e.pc)
  }

  lemma ToldKept(y: Sys, y': Sys)
    requires |y.tasks| == |y'.tasks| && forall c :: 0 <= c < |y.tasks| ==>
      ToldOk(y, c) && SameChild(y.tasks[c], y'.tasks[c])
    ensures forall c :: 0 <= c < |y.tasks| ==> ToldOk(y', c)
    ensures forall p :: 0 <= p < |y.tasks| ==> Zombies(y', p) == Zombies(y, p)
  {
    forall c | 0 <= c < |y.tasks| ensures ToldOk(y', c) {
      assert ToldOk(y, c) && SameChild(y.tasks[c], y'.tasks[c]);
      if Retelling(y, c) {
        var v :| 0 <= v < |y.tasks| && y.tasks[v].pc == VLock(0, XScan(c + 1));
        assert SameChild(y.tasks[v], y'.tasks[v]);
        assert y'.tasks[v].pc == VLock(0, XScan(c + 1));
      }
    }
    forall p | 0 <= p < |y.tasks| ensures Zombies(y', p) == Zombies(y, p) {
      assert forall c :: 0 <= c < |y.tasks| ==> SameChild(y.tasks[c], y'.tasks[c]);
    }
  }

  lemma FamilyKept(y: Sys, y': Sys)
    requires |y.tasks| <= |y.sems| && FamilyOk(y) && SameFamily(y, y')
    ensures FamilyOk(y')
  {
    ToldKept(y, y');
    hide SameChild; hide ToldOk; hide Zombies; hide ScanAt; hide Units;
    forall p | 0 <= p < |y.tasks| ensures CoverOk(y', p) { assert CoverOk(y, p); }
  }

  lemma FamilyFacts(y: Sys, c: nat)
    requires Core(y) && FamilyOk(y) && c < |y.tasks|
    ensures ToldOk(y, c)
  {
  }

  lemma FamilySchedLock(y: Sys, c: nat)
    requires Core(y) && SemsOk(y) && FamilyOk(y) && Enabled(y, SchedLock(c))
    ensures FamilyOk(Next(y, SchedLock(c)))
  {
    hide Core; hide SemsOk; hide FamilyOk; hide Zombies; hide Retelling;
    CoreCpu(y, c);
    FamilyFacts(y, y.cpus[c].at.p);
    FamilyKept(y, Next(y, SchedLock(c)));
  }

  lemma FamilySchedRun(y: Sys, c: nat)
    requires Core(y) && SemsOk(y) && FamilyOk(y) && Enabled(y, SchedRun(c))
    ensures FamilyOk(Next(y, SchedRun(c)))
  {
    hide Core; hide SemsOk; hide FamilyOk; hide Zombies; hide Retelling;
    CoreCpu(y, c);
    FamilyFacts(y, y.cpus[c].at.p);
    FamilyKept(y, Next(y, SchedRun(c)));
  }

  lemma FamilySchedBack(y: Sys, c: nat)
    requires Core(y) && SemsOk(y) && FamilyOk(y) && Enabled(y, SchedBack(c))
    ensures FamilyOk(Next(y, SchedBack(c)))
  {
    hide Core; hide SemsOk; hide FamilyOk; hide Zombies; hide Retelling;
    CoreCpu(y, c);
    FamilyFacts(y, y.cpus[c].at.p);
    FamilyKept(y, Next(y, SchedBack(c)));
  }

  lemma FamilyUnlock(y: Sys, c: nat)
    requires Core(y) && SemsOk(y) && FamilyOk(y) && Enabled(y, Unlock(c))
    ensures FamilyOk(Next(y, Unlock(c)))
  {
    hide Core; hide SemsOk; hide FamilyOk; hide Zombies; hide Retelling;
    CoreCpu(y, c);
    FamilyFacts(y, y.cpus[c].at.p);
    FamilyKept(y, Next(y, Unlock(c)));
  }

  lemma FamilyYield(y: Sys, c: nat)
    requires Core(y) && SemsOk(y) && FamilyOk(y) && Enabled(y, Yield(c))
    ensures FamilyOk(Next(y, Yield(c)))
  {
    hide Core; hide SemsOk; hide FamilyOk; hide Zombies; hide Retelling;
    CoreCpu(y, c);
    FamilyFacts(y, y.cpus[c].at.p);
    FamilyKept(y, Next(y, Yield(c)));
  }

  lemma FamilySwtch(y: Sys, c: nat)
    requires Core(y) && SemsOk(y) && FamilyOk(y) && Enabled(y, Swtch(c))
    ensures FamilyOk(Next(y, Swtch(c)))
  {
    hide Core; hide SemsOk; hide FamilyOk; hide Zombies; hide Retelling;
    CoreCpu(y, c);
    FamilyFacts(y, y.cpus[c].at.p);
    FamilyKept(y, Next(y, Swtch(c)));
  }

  lemma FamilyAcquire(y: Sys, c: nat, g: nat)
    requires Core(y) && SemsOk(y) && FamilyOk(y) && Enabled(y, Acquire(c, g))
    ensures FamilyOk(Next(y, Acquire(c, g)))
  {
    hide Core; hide SemsOk; hide FamilyOk; hide Zombies; hide Retelling;
    CoreCpu(y, c);
    FamilyFacts(y, y.cpus[c].at.p);
    FamilyKept(y, Next(y, Acquire(c, g)));
  }

  lemma FamilyRelease(y: Sys, c: nat, g: nat)
    requires Core(y) && SemsOk(y) && FamilyOk(y) && Enabled(y, Release(c, g))
    ensures FamilyOk(Next(y, Release(c, g)))
  {
    hide Core; hide SemsOk; hide FamilyOk; hide Zombies; hide Retelling;
    CoreCpu(y, c);
    FamilyFacts(y, y.cpus[c].at.p);
    FamilyKept(y, Next(y, Release(c, g)));
  }

  lemma FamilySleep(y: Sys, c: nat, g: nat, ch: int)
    requires Core(y) && SemsOk(y) && FamilyOk(y) && Enabled(y, Sleep(c, g, ch))
    ensures FamilyOk(Next(y, Sleep(c, g, ch)))
  {
    hide Core; hide SemsOk; hide FamilyOk; hide Zombies; hide Retelling;
    CoreCpu(y, c);
    FamilyFacts(y, y.cpus[c].at.p);
    FamilyKept(y, Next(y, Sleep(c, g, ch)));
  }

  lemma FamilyRetake(y: Sys, c: nat)
    requires Core(y) && SemsOk(y) && FamilyOk(y) && Enabled(y, Retake(c))
    ensures FamilyOk(Next(y, Retake(c)))
  {
    hide Core; hide SemsOk; hide FamilyOk; hide Zombies; hide Retelling;
    CoreCpu(y, c);
    FamilyFacts(y, y.cpus[c].at.p);
    FamilyKept(y, Next(y, Retake(c)));
  }

  lemma FamilyWakeup(y: Sys, i: nat, ch: int)
    requires Core(y) && SemsOk(y) && FamilyOk(y) && Enabled(y, Wakeup(i, ch))
    ensures FamilyOk(Next(y, Wakeup(i, ch)))
  {
    hide Core; hide SemsOk; hide FamilyOk; hide Zombies; hide Retelling;
    CoreTask(y, i);
    FamilyFacts(y, i);
    FamilyKept(y, Next(y, Wakeup(i, ch)));
  }

  lemma FamilyP2(y: Sys, c: nat)
    requires Core(y) && SemsOk(y) && FamilyOk(y) && Enabled(y, P2(c))
    ensures FamilyOk(Next(y, P2(c)))
  {
    hide Core; hide SemsOk; hide FamilyOk; hide Zombies; hide Retelling;
    CoreCpu(y, c);
    FamilyFacts(y, y.cpus[c].at.p);
    WaiterFacts(y, y.cpus[c].at.p);
    FamilyKept(y, Next(y, P2(c)));
  }

  lemma FamilyV2(y: Sys, c: nat)
    requires Core(y) && SemsOk(y) && FamilyOk(y) && Enabled(y, V2(c))
    ensures FamilyOk(Next(y, V2(c)))
  {
    hide Core; hide SemsOk; hide FamilyOk; hide Next; hide Enabled; hide SameChild; hide ScanAt; hide Units;
    V2Children(y, c);
    V2Scans(y, c);
    FamilyKept(y, Next(y, V2(c)));
  }

  lemma V2Children(y: Sys, c: nat)
    requires Core(y) && SemsOk(y) && FamilyOk(y) && Enabled(y, V2(c))
    ensures var y' := Next(y, V2(c));
      |y'.tasks| == |y.tasks| && forall i :: 0 <= i < |y.tasks| ==> SameChild(y.tasks[i], y'.tasks[i])
  {
    hide Core; hide SemsOk; hide FamilyOk; hide Zombies; hide Retelling;
    CoreCpu(y, c);
    FamilyFacts(y, y.cpus[c].at.p);
    WakerFacts(y, y.cpus[c].at.p);
    CoreTask(y, y.tasks[y.cpus[c].at.p].pc.u);
    FamilyFacts(y, y.tasks[y.cpus[c].at.p].pc.u);
  }

  lemma V2Scans(y: Sys, c: nat)
    requires Core(y) && SemsOk(y) && Enabled(y, V2(c))
    ensures var y' := Next(y, V2(c));
      && |y.tasks| == |y'.tasks| <= |y.sems| == |y'.sems|
      && forall p :: 0 <= p < |y.tasks| ==> ScanAt(y', p) == ScanAt(y, p) && Units(y'.sems[p]) == Units(y.sems[p])
  {
    hide Core; hide SemsOk; hide Next; hide Enabled;
    V2Is(y, c);
    CoreCpu(y, c);
    CoreSizes(y);
    WakerFacts(y, y.cpus[c].at.p);
    CoreTask(y, y.tasks[y.cpus[c].at.p].pc.u);
  }

  lemma FamilyExit1(y: Sys, c: nat)
    requires Core(y) && SemsOk(y) && FamilyOk(y) && Enabled(y, Exit1(c))
    ensures FamilyOk(Next(y, Exit1(c)))
  {
    hide Core; hide SemsOk; hide FamilyOk; hide Zombies; hide Retelling;
    CoreCpu(y, c);
    FamilyFacts(y, y.cpus[c].at.p);
    FamilyKept(y, Next(y, Exit1(c)));
  }

  lemma FamilyExit2(y: Sys, c: nat)
    requires Core(y) && SemsOk(y) && FamilyOk(y) && Enabled(y, Exit2(c))
    ensures FamilyOk(Next(y, Exit2(c)))
  {
    hide Core; hide SemsOk; hide FamilyOk; hide Zombies; hide Retelling;
    CoreCpu(y, c);
    FamilyFacts(y, y.cpus[c].at.p);
    FamilyKept(y, Next(y, Exit2(c)));
  }

  lemma FamilyForkMade(y: Sys, c: nat)
    requires Core(y) && SemsOk(y) && FamilyOk(y) && Enabled(y, ForkMade(c))
    ensures FamilyOk(Next(y, ForkMade(c)))
  {
    hide Core; hide SemsOk; hide FamilyOk; hide Zombies; hide Retelling;
    CoreCpu(y, c);
    FamilyFacts(y, y.cpus[c].at.p);
    CoreTask(y, y.tasks[y.cpus[c].at.p].pc.i);
    FamilyFacts(y, y.tasks[y.cpus[c].at.p].pc.i);
    FamilyKept(y, Next(y, ForkMade(c)));
  }

  lemma FamilySpawn(y: Sys, i: nat)
    requires Core(y) && SemsOk(y) && FamilyOk(y) && Enabled(y, Spawn(i))
    ensures FamilyOk(Next(y, Spawn(i)))
  {
    hide Core; hide SemsOk; hide FamilyOk; hide Zombies; hide Retelling;
    CoreTask(y, i);
    FamilyFacts(y, i);
    FamilyKept(y, Next(y, Spawn(i)));
  }

  lemma WaiterFacts(y: Sys, t: nat)
    requires SemsOk(y) && t < |y.tasks|
    ensures WaiterOk(y, t)
  {
  }

  // ---------------------------------------------------------------------------------------
  // The steps that change the account

  /** One more zombie at most. */
  lemma OneMore(zs: set<nat>, zs': set<nat>, a: nat, i: nat)
    requires zs' <= zs + {a}
    ensures |zs'| <= |zs| + 1 && |Below(zs', i)| <= |Below(zs, i)| + 1
  {
    Smaller(zs', zs + {a});
    Smaller(Below(zs', i), Below(zs, i) + {a});
  }

  lemma FewerZombies(zs: set<nat>, zs': set<nat>, i: nat)
    requires zs' <= zs
    ensures |zs'| <= |zs| && |Below(zs', i)| <= |Below(zs, i)|
  {
    Smaller(zs', zs);
    Smaller(Below(zs', i), Below(zs, i));
  }

  lemma AllBelow(y: Sys, p: nat)
    ensures Below(Zombies(y, p), |y.tasks|) == Zombies(y, p) && Below(Zombies(y, p), 0) == {}
  {
  }

  lemma FamilyP1(y: Sys, c: nat, s: nat, k: Pc)
    requires Core(y) && SemsOk(y) && FamilyOk(y) && Enabled(y, P1(c, s, k))
    ensures FamilyOk(Next(y, P1(c, s, k)))
  {
    hide Core; hide SemsOk; hide Next; hide Enabled; hide Zombies; hide Below; hide ToldOk; hide SameChild;
    hide ScanAt; hide Units;
    P1Is(y, c, s, k);
    CoreSizes(y);
    var y', t := Next(y, P1(c, s, k)), Me(y, c);
    P1Children(y, c, s, k);
    ToldKept(y, y');
    AllBelow(y, t);
    forall p | 0 <= p < |y.tasks| ensures CoverOk(y', p) {
      P1Scan(y, c, s, k, p);
      assert CoverOk(y, p);
    }
  }

  lemma P1Children(y: Sys, c: nat, s: nat, k: Pc)
    requires Core(y) && FamilyOk(y) && |y.tasks| <= |y.sems| && Enabled(y, P1(c, s, k))
    ensures var y' := Next(y, P1(c, s, k));
      |y'.tasks| == |y.tasks| && forall i :: 0 <= i < |y.tasks| ==> SameChild(y.tasks[i], y'.tasks[i])
  {
    hide Core; hide FamilyOk; hide Next; hide Enabled;
    P1Is(y, c, s, k);
    CoreCpu(y, c);
    FamilyFacts(y, Me(y, c));
  }

  /** A task that gets a unit in sys_wait starts to scan at entry 0; all else stays. */
  lemma P1Scan(y: Sys, c: nat, s: nat, k: Pc, p: nat)
    requires Core(y) && SemsOk(y) && Enabled(y, P1(c, s, k)) && p < |y.tasks| <= |y.sems|
    ensures var y' := Next(y, P1(c, s, k));
      && |y'.tasks| == |y.tasks| && |y'.sems| == |y.sems|
      && (if p == s && y.sems[s].value > 0 then
            && (ScanAt(y, p) == -1 || ScanAt(y, p) == |y.tasks|) && ScanAt(y', p) == 0 &&
              Units(y'.sems[p]) + 1 == Units(y.sems[p])
          else
            && (ScanAt(y', p) == ScanAt(y, p) || (p == s && ScanAt(y', p) == -1 && ScanAt(y, p) == |y.tasks|))
            && Units(y'.sems[p]) == Units(y.sems[p]))
  {
    hide Core; hide SemsOk; hide Next; hide Enabled;
    P1Is(y, c, s, k);
    CoreCpu(y, c);
    SemFacts(y, s);
  }

  lemma FamilyLook(y: Sys, c: nat)
    requires Core(y) && SemsOk(y) && FamilyOk(y) && Enabled(y, Look(c))
    ensures FamilyOk(Next(y, Look(c)))
  {
    hide Core; hide SemsOk; hide FamilyOk; hide Zombies; hide Retelling; hide Next; hide Enabled;
    LookIs(y, c);
    CoreCpu(y, c);
    var y', t := Next(y, Look(c)), y.cpus[c].at.p;
    var i := y.tasks[t].pc.i;
    CoreTask(y, i);
    FamilyFacts(y, t);
    FamilyFacts(y, i);
    if y.tasks[i].st == ZOMBIE {
      FamilyKept(y, y');
    } else {
      LookPasses(y, y', t, i);
    }
  }

  lemma LookPasses(y: Sys, y': Sys, t: nat, i: nat)
    requires Core(y) && FamilyOk(y) && t < |y.tasks| && i < |y.tasks| && y'.sems == y.sems
    requires y.tasks[t].pc == WLook(i) && !y.tasks[i].told && y.tasks[t].st == RUNNING
    requires |y'.tasks| == |y.tasks| && y'.tasks[t] == y.tasks[t].(pc := WLook(i + 1))
    requires forall u :: 0 <= u < |y.tasks| && u != t ==> y'.tasks[u] == y.tasks[u]
    ensures FamilyOk(y')
  {
    hide Core;
    CoreSizes(y);
    ToldKept(y, y');
    PassNonZombie(y, t, i);
    hide Zombies; hide Below; hide ToldOk; hide SameChild;
    forall p | 0 <= p < |y.tasks| ensures CoverOk(y', p) { assert CoverOk(y, p); }
  }

  lemma CoreSizes(y: Sys)
    requires Core(y)
    ensures 0 < |y.tasks| <= |y.sems|
  {
  }

  /** A scan that goes past an entry which is not one of its zombies has as many behind it as before. */
  lemma PassNonZombie(y: Sys, t: nat, i: nat)
    ensures i !in Zombies(y, t) ==> Below(Zombies(y, t), i + 1) == Below(Zombies(y, t), i)
    ensures i < |y.tasks| && !y.tasks[i].told ==> i !in Zombies(y, t)
    ensures i < |y.tasks| && y.tasks[i].parent != t ==> i !in Zombies(y, t)
  {
  }

  /** With wait_lock free, every zombie that has left its CPU has been signalled for. */
  lemma LeftIsTold(y: Sys, i: nat)
    requires Core(y) && FamilyOk(y) && i < |y.tasks| && y.waitLock == FREE
    requires y.tasks[i].st == ZOMBIE && y.tasks[i].parent >= 0 && HasTold(y.tasks[i].pc)
    ensures y.tasks[i].told
  {
    assert ToldOk(y, i);
    forall v | 0 <= v < |y.tasks| ensures y.tasks[v].pc != VLock(0, XScan(i + 1)) {
      assert TaskOk(y, v) && LocksOk(y, v);
    }
  }

  /** One zombie fewer. */
  lemma OneLess(zs: set<nat>, zs': set<nat>, i: nat)
    requires zs' == zs - {i} && i in zs
    ensures |zs'| == |zs| - 1
  {
  }

  lemma FamilyJoin(y: Sys, c: nat)
    requires Core(y) && SemsOk(y) && FamilyOk(y) && Enabled(y, Join(c))
    ensures FamilyOk(Next(y, Join(c)))
  {
    hide Core; hide SemsOk; hide FamilyOk;
    CoreCpu(y, c);
    var y', t := Next(y, Join(c)), y.cpus[c].at.p;
    var i := y.tasks[t].pc.i;
    CoreTask(y, i);
    if y.tasks[i].parent == t {
      LeftIsTold(y, i);
      JoinFrees(y, y', t, i);
    } else {
      JoinPasses(y, y', t, i);
    }
  }

  /** The zombie child `i` of `t` is freed, and the scan ends. */
  ghost predicate Freeing(y: Sys, y': Sys, t: nat, i: nat)
  {
    && t < |y.tasks| <= |y.sems| && i < |y.tasks| && i != t && y'.sems == y.sems
    && y.tasks[t].pc == WJoin(i) && y.tasks[i].parent == t && y.tasks[i].told && y.tasks[i].pc == Off(Gone)
    && |y'.tasks| == |y.tasks| && y'.tasks[t] == y.tasks[t].(pc := Idle)
    && y'.tasks[i].st == DEAD && !y'.tasks[i].told && y'.tasks[i].pc == Off(Gone)
    && (forall u :: 0 <= u < |y.tasks| && u != t && u != i ==> y'.tasks[u] == y.tasks[u])
  }

  lemma FreedTold(y: Sys, y': Sys, t: nat, i: nat, u: nat)
    requires Freeing(y, y', t, i) && u < |y.tasks| && ToldOk(y, u)
    ensures ToldOk(y', u)
  {
    if Retelling(y, u) {
      var v :| 0 <= v < |y.tasks| && y.tasks[v].pc == VLock(0, XScan(u + 1));
      assert y'.tasks[v].pc == VLock(0, XScan(u + 1));
    }
  }

  lemma FreedZombies(y: Sys, y': Sys, t: nat, i: nat, p: nat)
    requires Freeing(y, y', t, i)
    ensures i in Zombies(y, t)
    ensures Zombies(y', p) == if p == t then Zombies(y, p) - {i} else Zombies(y, p)
  {
  }

  lemma FreedScan(y: Sys, y': Sys, t: nat, i: nat, p: nat)
    requires Freeing(y, y', t, i) && p < |y.tasks|
    ensures ScanAt(y', t) == -1 && ScanAt(y, t) == i && (p != t && p != i ==> ScanAt(y', p) == ScanAt(y, p))
    ensures ScanAt(y, i) == -1 == ScanAt(y', i)
  {
  }

  lemma JoinFrees(y: Sys, y': Sys, t: nat, i: nat)
    requires Core(y) && FamilyOk(y) && Freeing(y, y', t, i)
    ensures FamilyOk(y')
  {
    hide Core; hide Zombies; hide ScanAt; hide ToldOk; hide Below; hide Units;
    forall u | 0 <= u < |y.tasks| ensures ToldOk(y', u) { FreedTold(y, y', t, i, u); }
    forall p | 0 <= p < |y.tasks| ensures CoverOk(y', p) {
      assert CoverOk(y, p);
      FreedZombies(y, y', t, i, p);
      FreedScan(y, y', t, i, p);
      if p == t { OneLess(Zombies(y, t), Zombies(y', t), i); }
    }
  }

  lemma JoinPasses(y: Sys, y': Sys, t: nat, i: nat)
    requires Core(y) && SemsOk(y) && FamilyOk(y) && t < |y.tasks| && i < |y.tasks| && i != t && y'.sems == y.sems
    requires y.tasks[t].pc == WJoin(i) && y.tasks[i].parent != t
    requires |y'.tasks| == |y.tasks| && y'.tasks[t] == y.tasks[t].(pc := WLook(i + 1)) &&
      y'.tasks[i] == y.tasks[i].(lock := FREE)
    requires forall u :: 0 <= u < |y.tasks| && u != t && u != i ==> y'.tasks[u] == y.tasks[u]
    ensures FamilyOk(y')
  {
    ToldKept(y, y');
    PassNonZombie(y, t, i);
    hide Zombies; hide Below; hide ToldOk; hide SameChild;
    forall p | 0 <= p < |y.tasks| ensures CoverOk(y', p) { assert CoverOk(y, p); }
  }

  lemma FamilyReparent(y: Sys, c: nat)
    requires Core(y) && SemsOk(y) && FamilyOk(y) && Enabled(y, Reparent(c))
    ensures FamilyOk(Next(y, Reparent(c)))
  {
    hide Core; hide SemsOk; hide Next; hide Enabled; hide FamilyOk; hide Zombies;
    ReparentIs(y, c);
    CoreCpu(y, c);
    var y', t := Next(y, Reparent(c)), y.cpus[c].at.p;
    var j := y.tasks[t].pc.j;
    if j < |y.tasks| && j != t && y.tasks[j].parent == t {
      GiveAway(y, y', t, j);
    } else {
      FamilyFacts(y, t);
      FamilyKept(y, y');
    }
  }

  /** Child `j` goes to task 0, which is to be signalled next. */
  lemma GiveAway(y: Sys, y': Sys, t: nat, j: nat)
    requires Core(y) && SemsOk(y) && FamilyOk(y) && t < |y.tasks| && j < |y.tasks| && j != t && y'.sems == y.sems
    requires y.tasks[t].pc == XScan(j) && y.tasks[j].parent == t
    requires |y'.tasks| == |y.tasks| && y'.tasks[t] == y.tasks[t].(pc := VLock(0, XScan(j + 1)))
    requires y'.tasks[j] == y.tasks[j].(parent := 0, told := false)
    requires forall u :: 0 <= u < |y.tasks| && u != t && u != j ==> y'.tasks[u] == y.tasks[u]
    ensures FamilyOk(y')
  {
    forall u | 0 <= u < |y.tasks| ensures ToldOk(y', u) {
      assert ToldOk(y, u);
      assert y'.tasks[t].pc == VLock(0, XScan(j + 1));
      if Retelling(y, u) {
        var v :| 0 <= v < |y.tasks| && y.tasks[v].pc == VLock(0, XScan(u + 1));
        assert y'.tasks[v].pc == VLock(0, XScan(u + 1));
      }
    }
    forall p | 0 <= p < |y.tasks| ensures CoverOk(y', p) {
      assert CoverOk(y, p);
      FewerZombies(Zombies(y, p), Zombies(y', p), if ScanAt(y, p) >= 0 then ScanAt(y, p) else 0);
    }
  }

  lemma FamilyForkLook(y: Sys, c: nat)
    requires Core(y) && SemsOk(y) && FamilyOk(y) && LinksOk(y) && Enabled(y, ForkLook(c))
    ensures FamilyOk(Next(y, ForkLook(c)))
  {
    hide Core; hide SemsOk; hide FamilyOk; hide Zombies; hide Retelling; hide LinksOk; hide Next; hide Enabled;
    ForkLookIs(y, c);
    CoreCpu(y, c);
    CoreSizes(y);
    var y', t := Next(y, ForkLook(c)), y.cpus[c].at.p;
    var i := if y.tasks[t].pc.FLook? && y.tasks[t].pc.i < |y.tasks| then y.tasks[t].pc.i else t;
    CoreTask(y, i);
    FamilyFacts(y, t);
    FamilyFacts(y, i);
    if y.tasks[i].st == DEAD {
      NoChildren(y, i);
      Reborn(y, y', t, i);
    } else {
      FamilyKept(y, y');
    }
  }

  /** Entry `i` of the table gets a new task: nobody's child yet, and without children. */
  lemma Reborn(y: Sys, y': Sys, t: nat, i: nat)
    requires Core(y) && FamilyOk(y) && t < |y.tasks| && i < |y.tasks| && i != t && Zombies(y, i) == {}
    requires y.tasks[t].pc == FLook(i) && y.tasks[t].st == RUNNING && y.tasks[i].st == DEAD && y.tasks[i].pc.Off?
    requires |y'.tasks| == |y.tasks| <= |y.sems| == |y'.sems| && y'.tasks[t] == y.tasks[t].(pc := FMade(i))
    requires y'.tasks[i].pc == Off(Idle) && y'.tasks[i].st == USED && y'.tasks[i].told == y.tasks[i].told
    requires forall u :: 0 <= u < |y.tasks| && u != t && u != i ==> y'.tasks[u] == y.tasks[u] && y'.sems[u] == y.sems[u]
    requires y'.sems[t] == y.sems[t]
    ensures FamilyOk(y')
  {
    hide Core;
    assert ToldOk(y, i);
    ToldKept(y, y');
    hide Zombies; hide Below; hide ToldOk; hide SameChild;
    forall p | 0 <= p < |y.tasks| ensures CoverOk(y', p) { assert CoverOk(y, p); }
  }

  lemma NoChildren(y: Sys, i: nat)
    requires LinksOk(y) && i < |y.tasks| && y.tasks[i].st == DEAD
    ensures Zombies(y, i) == {}
  {
    forall t | 0 <= t < |y.tasks| ensures y.tasks[t].parent != i { assert ParentOk(y, t); }
  }

  /** What exit's signal for `a` to its parent `s` does, apart from the semaphore. */
  ghost predicate Tells(y: Sys, y': Sys, t: nat, a: nat, s: nat)
  {
    && |y'.tasks| == |y.tasks| && t < |y.tasks| && a < |y.tasks| && y.tasks[a].parent == s
    && y.tasks[t].pc.VLock? && y.tasks[t].pc.k.XScan? &&
      a == (if y.tasks[t].pc.k.j == 0 then t else y.tasks[t].pc.k.j - 1)
    && y.tasks[t].st == ZOMBIE
    && (y'.tasks[t].pc == y.tasks[t].pc.k || (y'.tasks[t].pc.VFound? && y'.tasks[t].pc.k == y.tasks[t].pc.k))
    && (forall u :: 0 <= u < |y.tasks| ==>
          y'.tasks[u] == y.tasks[u].(pc := if u == t then y'.tasks[t].pc else y.tasks[u].pc,
                                     told := y.tasks[u].told || (u == a && y.tasks[u].st == ZOMBIE)))
  }

  lemma TellsFacts(y: Sys, c: nat, s: nat)
    requires Core(y) && Enabled(y, V1(c, s)) && y.tasks[y.cpus[c].at.p].pc.VLock?
    ensures s < |y.tasks| && Tells(y, Next(y, V1(c, s)), y.cpus[c].at.p, Announced(y, c), s)
  {
    hide Core;
    CoreCpu(y, c);
  }

  lemma TellsToldOk(y: Sys, y': Sys, t: nat, a: nat, s: nat, c: nat)
    requires Tells(y, y', t, a, s) && c < |y.tasks| && ToldOk(y, c)
    ensures ToldOk(y', c)
  {
    if Retelling(y, c) {
      var v :| 0 <= v < |y.tasks| && y.tasks[v].pc == VLock(0, XScan(c + 1));
      if v != t {
        assert y'.tasks[v].pc == VLock(0, XScan(c + 1));
      }
    }
  }

  lemma TellsZombies(y: Sys, y': Sys, t: nat, a: nat, s: nat, p: nat)
    requires Tells(y, y', t, a, s)
    ensures p != s ==> Zombies(y', p) == Zombies(y, p)
    ensures Zombies(y, p) <= Zombies(y', p) <= Zombies(y, p) + {a}
  {
  }

  /** A child's signal to the parent `s`: a unit more, or the waiting parent let through. */
  lemma FamilyTell(y: Sys, c: nat, s: nat)
    requires Core(y) && SemsOk(y) && FamilyOk(y) && Enabled(y, V1(c, s)) && y.tasks[y.cpus[c].at.p].pc.VLock?
    ensures FamilyOk(Next(y, V1(c, s)))
  {
    var y', t, a := Next(y, V1(c, s)), y.cpus[c].at.p, Announced(y, c);
    TellsFacts(y, c, s);
    CoreCpu(y, c);
    forall u | 0 <= u < |y.tasks| ensures ToldOk(y', u) {
      assert ToldOk(y, u);
      TellsToldOk(y, y', t, a, s, u);
    }
    forall p | 0 <= p < |y.tasks| ensures CoverOk(y', p) {
      assert CoverOk(y, p);
      TellsZombies(y, y', t, a, s, p);
      if p == s {
        CoverSignalled(y, c, s);
      } else {
        ScanElsewhere(y, c, s, p);
      }
    }
  }

  /** What V1 does to the semaphores. */
  lemma V1Sems(y: Sys, c: nat, s: nat)
    requires Core(y) && SemsOk(y) && Enabled(y, V1(c, s)) && y.tasks[y.cpus[c].at.p].pc.VLock?
    ensures var y', t := Next(y, V1(c, s)), y.cpus[c].at.p;
      && InTask(y, c) && t < |y.tasks| <= |y.sems| == |y'.sems| && s < |y.sems| && |y'.tasks| == |y.tasks|
      && y.sems[s].lock == FREE && (y.sems[s].value < 0 ==> y.sems[s].queue != [])
      && (forall p :: 0 <= p < |y.sems| && p != s ==> y'.sems[p] == y.sems[p])
      && y'.sems[s].value == y.sems[s].value + 1
      && y'.sems[s].queue == (if y.sems[s].value < 0 then y.sems[s].queue[1..] else y.sems[s].queue)
      && (y.sems[s].value >= 0 ==> y'.tasks[t].pc == y.tasks[t].pc.k)
  {
    hide Core; hide SemsOk; hide Tell;
    TellFacts(y, c);
    CoreCpu(y, c);
    CoreSizes(y);
    SemFacts(y, s);
  }

  lemma ScanElsewhere(y: Sys, c: nat, s: nat, p: nat)
    requires Core(y) && SemsOk(y) && Enabled(y, V1(c, s)) && p < |y.tasks| && p != s &&
      y.tasks[y.cpus[c].at.p].pc.VLock?
    ensures ScanAt(Next(y, V1(c, s)), p) == ScanAt(y, p)
    ensures Units(Next(y, V1(c, s)).sems[p]) == Units(y.sems[p])
  {
    hide Core; hide SemsOk; hide Next; hide Enabled;
    V1Sems(y, c, s);
    TellsFacts(y, c, s);
  }

  lemma CoverSignalled(y: Sys, c: nat, s: nat)
    requires Core(y) && SemsOk(y) && Enabled(y, V1(c, s)) && s < |y.tasks| && CoverOk(y, s) &&
      y.tasks[y.cpus[c].at.p].pc.VLock?
    ensures CoverOk(Next(y, V1(c, s)), s)
  {
    hide Core; hide SemsOk; hide Zombies; hide Next; hide Enabled;
    V1Sems(y, c, s);
    var y', t, a := Next(y, V1(c, s)), y.cpus[c].at.p, Announced(y, c);
    TellsFacts(y, c, s);
    TellsZombies(y, y', t, a, s, s);
    OneMore(Zombies(y, s), Zombies(y', s), a, if ScanAt(y, s) >= 0 then ScanAt(y, s) else 0);
    AllBelow(y', s);
    if y.sems[s].value < 0 {
      FirstSleeps(y, s);
      OwnQueue(y, s);
    }
  }

  lemma FirstTwo(q: seq<nat>)
    requires forall i, j :: 0 <= i < j < |q| ==> q[i] != q[j]
    ensures |q| > 1 ==> q[0] != q[1]
  {
  }

  /** Only a task itself queues up on its `sons_sem`. */
  lemma OwnQueue(y: Sys, s: nat)
    requires Core(y) && SemsOk(y) && s < |y.tasks| && y.sems[s].value < 0
    ensures s < |y.sems| && y.sems[s].queue == [s] && y.sems[s].value == -1
  {
    assert QueueOk(y, s) && CountsOk(y.sems[s]);
    var q := y.sems[s].queue;
    FirstTwo(q);
    forall i | 0 <= i < |q| ensures q[i] == s { assert TaskOk(y, q[i]); }
  }

  /** Signalling keeps the account. */
  lemma FamilyV1(y: Sys, c: nat, s: nat)
    requires Core(y) && SemsOk(y) && FamilyOk(y) && Enabled(y, V1(c, s))
    ensures FamilyOk(Next(y, V1(c, s)))
  {
    hide Core; hide SemsOk; hide FamilyOk; hide Next; hide Enabled;
    V1Is(y, c, s);
    CoreSizes(y);
    if MyPc(y, c).VLock? {
      FamilyTell(y, c, s);
    } else {
      FamilyOtherV(y, c, s);
    }
  }

  /** A V of other code is on none of the semaphores `sons_sem`. */
  lemma FamilyOtherV(y: Sys, c: nat, s: nat)
    requires Core(y) && SemsOk(y) && FamilyOk(y) && Enabled(y, V1(c, s)) && !MyPc(y, c).VLock?
    ensures FamilyOk(Next(y, V1(c, s)))
  {
    hide Core; hide SemsOk; hide FamilyOk; hide Zombies; hide Retelling; hide Next; hide Enabled;
    V1Is(y, c, s);
    CoreCpu(y, c);
    SemFacts(y, s);
    if y.sems[s].value < 0 { FirstSleeps(y, s); CoreTask(y, y.sems[s].queue[0]); }
    FamilyFacts(y, Me(y, c));
    FamilyKept(y, Next(y, V1(c, s)));
  }
}
