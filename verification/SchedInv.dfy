/** What every reachable state of the scheduler, the semaphores and exit/wait satisfies. */
module SchedInv {
  import opened SchedModel

  // ---------------------------------------------------------------------------------------
  // Which locks a task holds at each point

  predicate OwnLock(pc: Pc)
  {
    pc.XWait? || pc.XScan? || pc.VLock? || pc.Switch? || pc.Back? || (pc.VFound? && pc.k.XScan?)
  }

  predicate WaitLock(pc: Pc)
  {
    pc.XScan? || pc.VLock? || (pc.VFound? && pc.k.XScan?)
  }

  /** The lock of semaphore `pc.s`. */
  predicate SemLock(pc: Pc)
  {
    pc.PWait? || pc.VFound?
  }

  /** The lock of task `pc.i`. */
  predicate OtherLock(pc: Pc)
  {
    pc.WJoin? || pc.FMade?
  }

  /** How many locks a task holds at `pc`, besides those of other code. */
  function OwnCount(pc: Pc): nat
  {
    match pc
    case PWait(_, _) => 1
    case VLock(_, _) => 2
    case VFound(_, _, k) => if k.XScan? then 3 else 1
    case XWait => 1
    case XScan(_) => 2
    case WJoin(_) => 1
    case FMade(_) => 1
    case Switch(_) => 1
    case Back(_) => 1
    case _ => 0
  }

  /** What `noff` counts. */
  function LockCount(pc: Pc): nat
  {
    OwnCount(pc) + |Held(pc)|
  }

  /** The locks that go with the point a task is at are held by the CPU that runs it. */
  ghost predicate LocksOk(y: Sys, t: nat)
    requires t < |y.tasks|
  {
    var e := y.tasks[t];
    e.on >= 0 ==>
      && (OwnLock(e.pc) ==> e.lock == e.on)
      && (WaitLock(e.pc) ==> y.waitLock == e.on)
      && (SemLock(e.pc) && e.pc.s < |y.sems| ==> y.sems[e.pc.s].lock == e.on)
      && (OtherLock(e.pc) && e.pc.i < |y.tasks| ==> y.tasks[e.pc.i].lock == e.on)
      && SpinsOk(y, Held(e.pc), e.on)
  }

  /** CPU `c` holds the spinlocks `gs`. */
  ghost predicate SpinsOk(y: Sys, gs: set<nat>, c: int)
  {
    forall g :: g in gs ==> g < |y.spins| && y.spins[g] == c
  }

  // ---------------------------------------------------------------------------------------
  // Tasks and CPUs

  predicate StateOk(st: State, pc: Pc)
  {
    match pc
    case Switch(k) => st == if k.Gone? then ZOMBIE else if k.Woken? || k.Asleep? then SLEEPING else RUNNABLE
    case Off(k) =>
      if k.Gone? then st == ZOMBIE || st == DEAD
      else st == RUNNABLE || (st == SLEEPING && (k.Woken? || k.Asleep?)) || (st == USED && k.Idle?)
    case _ => st == if OwnLock(pc) && !pc.Back? then ZOMBIE else RUNNING
  }

  predicate Alive(e: Task)
  {
    e.st != DEAD && e.st != USED
  }

  predicate OtherOk(pc: Pc)
  {
    Other(pc) && (pc.Hold? ==> pc.gs != {})
  }

  /** A task queues up on its own semaphore only from sys_wait, on others from other code. */
  predicate PFrom(y: Sys, t: nat, s: nat, k: Pc)
  {
    s < |y.sems| && if s < |y.tasks| then s == t && k == WLook(0) else OtherOk(k)
  }

  predicate Simple(y: Sys, pc: Pc)
  {
    || pc.Idle? || (pc.Relock? && pc.g < |y.spins|)
    || ((pc.WLook? || pc.FLook?) && pc.i <= |y.tasks|)
  }

  predicate ParkedOk(y: Sys, t: nat, k: Pc)
  {
    Simple(y, k) || k.Gone? || (k.Asleep? && k.g < |y.spins|) || (k.Woken? && PFrom(y, t, k.s, k.k))
  }

  predicate PcOk(y: Sys, t: nat)
    requires t < |y.tasks|
  {
    var N := |y.tasks|;
    match y.tasks[t].pc
    case Hold(_) => OtherOk(y.tasks[t].pc)
    case PWait(s, k) => PFrom(y, t, s, k)
    case VLock(s, k) =>
      && s < N && Alive(y.tasks[s]) && k.XScan? && k.j <= N
      && (if k.j == 0 then y.tasks[t].parent == s else s == 0 && y.tasks[k.j - 1].parent == 0)
    case VFound(s, u, k) => s < |y.sems| && u < N && if s < N then Alive(y.tasks[s]) && k.XScan? &&
      k.j <= N else OtherOk(k)
    case XWait => true
    case XScan(j) => j <= N
    case WJoin(i) => i < N && i != t && y.tasks[i].st == ZOMBIE
    case FMade(i) => i < N && i != t && y.tasks[i].st == USED && y.tasks[i].parent == NOBODY
    case Switch(k) => ParkedOk(y, t, k)
    case Off(k) => ParkedOk(y, t, k) && Held(Switch(k)) == {}
    case Back(k) => ParkedOk(y, t, k) && Held(Switch(k)) == {} && !k.Gone?
    case pc => Simple(y, pc)
  }

  predicate AsleepAt(pc: Pc)
  {
    (pc.Switch? || pc.Off? || pc.Back?) && pc.k.Asleep?
  }

  ghost predicate TaskOk(y: Sys, t: nat)
    requires t < |y.tasks|
  {
    var e := y.tasks[t];
    && e.on >= NOBODY && (e.on == NOBODY <==> e.pc.Off?)
    && (e.on >= 0 ==> e.on < |y.cpus| && y.cpus[e.on].at == In(t))
    && StateOk(e.st, e.pc) && PcOk(y, t)
    && (e.named <==> e.st != DEAD) && NOBODY <= e.parent < |y.tasks| && (!Alive(e) ==> e.parent == NOBODY)
    && (e.chan != 0 ==> AsleepAt(e.pc))
  }

  predicate CpuOk(y: Sys, c: nat)
    requires c < |y.cpus|
  {
    var d := y.cpus[c];
    && d.at.p < |y.tasks|
    && var e := y.tasks[d.at.p];
       match d.at
       case At(_) => d.cur == NOBODY && d.noff == 0
       case Got(_) => d.cur == NOBODY && d.noff == 1 && e.lock == c && e.st == RUNNABLE
       case In(p) => d.cur == p && d.noff == LockCount(e.pc) && e.on == c
       case Out(p) => d.cur == p && d.noff == 1 && e.lock == c && e.pc.Off?
  }

  ghost predicate Core(y: Sys)
  {
    && 0 < |y.tasks| <= |y.sems|
    && (forall t :: 0 <= t < |y.tasks| ==> TaskOk(y, t))
    && (forall t :: 0 <= t < |y.tasks| ==> LocksOk(y, t))
    && (forall c :: 0 <= c < |y.cpus| ==> CpuOk(y, c))
  }

  // ---------------------------------------------------------------------------------------
  // Parents

  /** How far exit has come in giving the children away: `Upto(j)` when entries below `j` are done. */
  datatype Stage = NotYet | Upto(j: nat) | Over

  function StageOf(pc: Pc): Stage
  {
    if pc.XScan? then Upto(pc.j)
    else if (pc.VLock? || pc.VFound?) && pc.k.XScan? then Upto(pc.k.j)
    else if (pc.Switch? || pc.Off?) && pc.k.Gone? then Over
    else NotYet
  }

  /** A parent is alive, and has not yet given this child away; task 0, which takes the children of the
      others, may keep its own. */
  predicate ParentOk(y: Sys, t: nat)
    requires t < |y.tasks|
  {
    var p := y.tasks[t].parent;
    0 <= p < |y.tasks| ==>
      && p != t && Alive(y.tasks[p])
      && var g := StageOf(y.tasks[p].pc);
         p == 0 || g == NotYet || (g.Upto? && t >= g.j)
  }

  ghost predicate LinksOk(y: Sys)
  {
    && |y.tasks| > 0 && y.tasks[0].parent == NOBODY && Alive(y.tasks[0])
    && forall t :: 0 <= t < |y.tasks| ==> ParentOk(y, t)
  }

  // ---------------------------------------------------------------------------------------
  // Semaphores

  /** What a task has to do with the queue of a semaphore. */
  datatype Role = Plain | Queues(s: nat) | Sleeps(s: nat) | Wakes(s: nat, u: nat)

  /** A task that has entered the queue in P is awake at first, then sleeps until a V wakes it. */
  function RoleOf(e: Task): Role
  {
    if e.pc.PWait? then Queues(e.pc.s)
    else if (e.pc.Switch? || e.pc.Off?) && e.pc.k.Woken? && e.st == SLEEPING then Sleeps(e.pc.k.s)
    else if e.pc.VFound? then Wakes(e.pc.s, e.pc.u)
    else Plain
  }

  ghost predicate QueueOk(y: Sys, s: nat)
    requires s < |y.sems|
  {
    var q := y.sems[s].queue;
    && (forall i :: 0 <= i < |q| ==> q[i] < |y.tasks| && RoleOf(y.tasks[q[i]]) in {Queues(s), Sleeps(s)})
    && (forall i, j :: 0 <= i < j < |q| ==> q[i] != q[j])
  }

  ghost predicate CountsOk(m: Sem)
  {
    && |m.queue| == (if m.value < 0 then -m.value else 0)
    && m.value == m.init + m.issued - m.started
    && m.granted + |m.queue| == m.started
    && m.arrivals == m.releases + m.queue
  }

  ghost predicate BeingWoken(y: Sys, s: nat, t: nat)
  {
    exists v :: 0 <= v < |y.tasks| && RoleOf(y.tasks[v]) == Wakes(s, t)
  }

  /** A task that waits is queued, or somebody is about to wake it. */
  ghost predicate WaiterOk(y: Sys, t: nat)
    requires t < |y.tasks|
  {
    var r := RoleOf(y.tasks[t]);
    && (r.Queues? && r.s < |y.sems| ==> t in y.sems[r.s].queue)
    && (r.Sleeps? && r.s < |y.sems| ==> t in y.sems[r.s].queue || BeingWoken(y, r.s, t))
  }

  /** A task about to be woken sleeps on the semaphore, and is no longer queued. */
  ghost predicate WakerOk(y: Sys, v: nat)
    requires v < |y.tasks|
  {
    var r := RoleOf(y.tasks[v]);
    r.Wakes? && r.s < |y.sems| ==>
      r.u < |y.tasks| && r.u !in y.sems[r.s].queue && RoleOf(y.tasks[r.u]) == Sleeps(r.s)
  }

  ghost predicate SemsOk(y: Sys)
  {
    && (forall s :: 0 <= s < |y.sems| ==> CountsOk(y.sems[s]))
    && (forall s :: 0 <= s < |y.sems| ==> QueueOk(y, s))
    && (forall t :: 0 <= t < |y.tasks| ==> WaiterOk(y, t))
    && (forall t :: 0 <= t < |y.tasks| ==> WakerOk(y, t))
  }

  // ---------------------------------------------------------------------------------------
  // Signals for zombies

  /** The zombie has signalled its parent, or had none to signal. */
  predicate HasTold(pc: Pc)
  {
    pc.XScan? || (pc.VLock? && pc.k.XScan? && pc.k.j > 0) || (pc.VFound? && pc.k.XScan?)
    || ((pc.Switch? || pc.Off?) && pc.k.Gone?)
  }

  /** Somebody is about to signal task 0 for the child `c` it has just been given. */
  ghost predicate Retelling(y: Sys, c: nat)
  {
    exists v :: 0 <= v < |y.tasks| && y.tasks[v].pc == VLock(0, XScan(c + 1))
  }

  ghost predicate ToldOk(y: Sys, c: nat)
    requires c < |y.tasks|
  {
    var e := y.tasks[c];
    && (e.told ==> e.st == ZOMBIE)
    && (e.st == ZOMBIE && e.parent >= 0 && HasTold(e.pc) ==> e.told || Retelling(y, c))
  }

  /** The children of `p` that are zombies for which `p` has been signalled. */
  ghost function Zombies(y: Sys, p: nat): set<nat>
  {
    set c | 0 <= c < |y.tasks| && y.tasks[c].parent == p && y.tasks[c].told
  }

  ghost function Below(zs: set<nat>, i: nat): set<nat>
  {
    set c | c in zs && c < i
  }

  /** Where a task in sys_wait that has got its unit is looking; -1 if it has none. */
  ghost function ScanAt(y: Sys, p: nat): int
    requires p < |y.tasks| && p < |y.sems|
  {
    var pc := y.tasks[p].pc;
    var k := if pc.Switch? || pc.Off? || pc.Back? then pc.k else pc;
    if k.WLook? || k.WJoin? then k.i
    else if k.Woken? && k.s == p && !(RoleOf(y.tasks[p]) == Sleeps(p) && p in y.sems[p].queue) then 0
    else -1
  }

  function Units(m: Sem): nat
  {
    if m.value > 0 then m.value else 0
  }

  /** The units of `sons_sem`, and the one a scan has used up, cover the zombies; those that a scan has
      already passed are covered by the units alone. */
  ghost predicate CoverOk(y: Sys, p: nat)
    requires p < |y.tasks| && p < |y.sems|
  {
    var zs, i, n := Zombies(y, p), ScanAt(y, p), Units(y.sems[p]);
    if i < 0 then |zs| <= n else |zs| <= n + 1 && |Below(zs, i)| <= n
  }

  ghost predicate FamilyOk(y: Sys)
    requires |y.tasks| <= |y.sems|
  {
    && (forall c :: 0 <= c < |y.tasks| ==> ToldOk(y, c))
    && (forall p :: 0 <= p < |y.tasks| ==> CoverOk(y, p))
  }

  ghost predicate Inv(y: Sys)
  {
    Core(y) && LinksOk(y) && SemsOk(y) && FamilyOk(y)
  }

  // ---------------------------------------------------------------------------------------
  // What follows for every interleaving

  /** No task is current on two CPUs. */
  lemma CurrentOnce(y: Sys, c: nat, d: nat)
    requires Core(y) && c < |y.cpus| && d < |y.cpus| && y.cpus[c].cur == y.cpus[d].cur != NOBODY
    ensures c == d
  {
    assert CpuOk(y, c) && CpuOk(y, d);
    var t := y.cpus[c].cur;
    assert TaskOk(y, t);
  }

  /** A task that can run and is not locked is executed nowhere: no CPU runs it, none has it current. */
  lemma RunnableIsNowhere(y: Sys, t: nat, c: nat)
    requires Core(y) && t < |y.tasks| && y.tasks[t].st == RUNNABLE && y.tasks[t].lock == FREE && c < |y.cpus|
    ensures y.tasks[t].pc.Off? && y.tasks[t].on == NOBODY && y.cpus[c].cur != t
  {
    assert TaskOk(y, t) && LocksOk(y, t);
    assert CpuOk(y, c);
  }

  /** Of sched's checks only that of the number of locks can fail: exactly when the task has called P or
      sleep with a spinlock held that the call does not release. */
  lemma SchedPanics(y: Sys, c: nat)
    requires Core(y) && InTask(y, c) && MyPc(y, c).Switch? && !MyPc(y, c).k.Gone?
    ensures y.tasks[Me(y, c)].lock == c && y.tasks[Me(y, c)].st != RUNNING && y.cpus[c].noff == 1 + |Held(MyPc(y, c))|
    ensures SchedChecks(y, c) <==> Held(MyPc(y, c)) == {}
  {
    assert CpuOk(y, c);
    assert TaskOk(y, Me(y, c)) && LocksOk(y, Me(y, c));
  }

  /** A task that stands at none of the points of an operation has just its own spinlocks. */
  lemma CallerLocks(y: Sys, c: nat)
    requires Core(y) && InTask(y, c) && (Other(MyPc(y, c)) || MyPc(y, c).WLook?)
    ensures y.cpus[c].noff == |HeldNow(MyPc(y, c))|
  {
    assert CpuOk(y, c);
  }

  /** No semaphore lets more P's through than its initial value and the V's issued allow. */
  lemma GrantsBounded(y: Sys, s: nat)
    requires SemsOk(y) && s < |y.sems|
    ensures y.sems[s].granted <= y.sems[s].init + y.sems[s].issued
    ensures |y.sems[s].queue| == if y.sems[s].value < 0 then -y.sems[s].value else 0
  {
    assert CountsOk(y.sems[s]);
  }

  /** Waiters are let through in the order of their arrival. */
  lemma ReleasedInOrder(y: Sys, s: nat)
    requires SemsOk(y) && s < |y.sems|
    ensures y.sems[s].releases <= y.sems[s].arrivals
    ensures y.sems[s].queue == y.sems[s].arrivals[|y.sems[s].releases|..]
  {
    assert CountsOk(y.sems[s]);
  }

  /** No wakeup is lost: a task that sleeps in P, when nobody is in the middle of an operation on the
      semaphore, is queued, so a later V will find it, and the semaphore has no unit to give. */
  lemma NoLostWakeup(y: Sys, t: nat, s: nat)
    requires Core(y) && SemsOk(y) && t < |y.tasks| && s < |y.sems|
    requires RoleOf(y.tasks[t]) == Sleeps(s) && y.sems[s].lock == FREE
    ensures t in y.sems[s].queue && y.sems[s].value < 0
  {
    assert WaiterOk(y, t) && CountsOk(y.sems[s]);
    forall v | 0 <= v < |y.tasks| ensures RoleOf(y.tasks[v]) != Wakes(s, t) {
      assert TaskOk(y, v) && LocksOk(y, v);
    }
  }

  /** A parent blocks in sys_wait only when it has no zombie child whose exit is over.  (While somebody
      has wait_lock, a signal for such a child may be on its way.) */
  lemma BlocksOnlyWithoutZombies(y: Sys, p: nat, c: nat)
    requires Inv(y) && p < |y.tasks| && c < |y.tasks| && y.waitLock == FREE
    requires RoleOf(y.tasks[p]) == Sleeps(p) && p in y.sems[p].queue
    ensures !(y.tasks[c].parent == p && y.tasks[c].st == ZOMBIE && y.tasks[c].lock == FREE)
  {
    assert CoverOk(y, p) && ToldOk(y, c) && TaskOk(y, c) && LocksOk(y, c) && TaskOk(y, p) && QueueOk(y, p) &&
      CountsOk(y.sems[p]);
    assert |y.sems[p].queue| > 0;
    assert Zombies(y, p) == {};
    assert y.tasks[c].parent == p && y.tasks[c].told ==> c in Zombies(y, p);
    forall v | 0 <= v < |y.tasks| ensures y.tasks[v].pc != VLock(0, XScan(c + 1)) {
      assert TaskOk(y, v) && LocksOk(y, v);
    }
  }

  /** A zombie is freed only after it has left its CPU for good, and then nobody has it as a child, so
      no second sys_wait can free it. */
  lemma ReapedOnceOffCpu(y: Sys, c: nat, d: nat)
    requires Inv(y) && Enabled(y, Join(c)) && d < |y.cpus|
    requires y.tasks[MyPc(y, c).i].parent == Me(y, c)
    ensures var i, y' := MyPc(y, c).i, Next(y, Join(c));
      && y.tasks[i].st == ZOMBIE && y.tasks[i].pc == Off(Gone) && y.tasks[i].on == NOBODY && y.cpus[d].cur != i
      && y'.tasks[i].st == DEAD && y'.tasks[i].parent == NOBODY
  {
    var t, i := Me(y, c), MyPc(y, c).i;
    assert CpuOk(y, c) && CpuOk(y, d) && TaskOk(y, t) && LocksOk(y, t) && TaskOk(y, i) && LocksOk(y, i);
  }
}
