/** Tasks using the buffer cache at the same time (kernel/bio.c): bget, bread, bwrite and brelse cut
    into the steps between which other tasks can run.  The semaphore of a buffer starts at 1, so it is
    seen here as its holder. */
module BioProtocol {
  import opened BioCache

  type Data = seq<nat>

  /** What a task is doing: nothing; waiting for the semaphore of `b`, which bget gave it for a block;
      holding `b`; after the V of brelse, before the rest of it. */
  datatype Doing = Out | Waits(b: nat, dev: nat, blockno: nat) | Holds(b: nat, dev: nat, blockno: nat) | Leaves(b: nat)

  const NOBODY: int := -1

  datatype Sys = Sys(cache: Cache, holder: seq<int>, data: seq<Data>, disk: map<(nat, nat), Data>, tasks: seq<Doing>)

  datatype Step =
    | Want(t: nat, dev: nat, blockno: nat)   // bget under the cache's lock
    | Take(t: nat)                           // the P of bget
    | Fill(t: nat)                           // bread: virtio_disk_rw(b, 0) and valid = 1
    | Change(t: nat, d: Data)                // the holder changes b->data
    | Write(t: nat)                          // bwrite
    | Drop(t: nat)                           // brelse: V
    | Done(t: nat)                           // brelse under the cache's lock

  predicate Sane(y: Sys)
  {
    && |y.holder| == |y.data| == |y.cache.bufs|
    && (forall j :: 0 <= j < |y.cache.order| ==> y.cache.order[j] < |y.cache.bufs|)
  }

  function Block(b: Buf): (nat, nat)
  {
    (b.dev, b.blockno)
  }

  /** A holder may drop a buffer only with its contents written, if it has contents. */
  predicate Enabled(y: Sys, e: Step)
  {
    && Sane(y) && e.t < |y.tasks|
    && var me := y.tasks[e.t];
       match e
       case Want(t, dev, blockno) => me.Out? && dev != 0 && (dev, blockno) in y.disk &&
         Get(y.cache, dev, blockno).b >= 0
       case Take(t) => me.Waits? && me.b < |y.holder| && y.holder[me.b] == NOBODY
       case Fill(t) => me.Holds? && me.b < |y.data| && !y.cache.bufs[me.b].valid && Block(y.cache.bufs[me.b]) in y.disk
       case Change(t, d) => me.Holds? && me.b < |y.data| && y.cache.bufs[me.b].valid
       case Write(t) => me.Holds? && me.b < |y.data|
       case Drop(t) => me.Holds? && me.b < |y.data| && Clean(y, me.b)
       case Done(t) => me.Leaves? && me.b < |y.cache.bufs| && y.cache.bufs[me.b].refcnt > 0
  }

  /** The buffer, if it has contents, has those of its disk block. */
  predicate Clean(y: Sys, b: nat)
    requires b < |y.cache.bufs| == |y.data|
  {
    y.cache.bufs[b].valid ==> Block(y.cache.bufs[b]) in y.disk && y.data[b] == y.disk[Block(y.cache.bufs[b])]
  }

  function Next(y: Sys, e: Step): Sys
    requires Enabled(y, e)
  {
    var me := y.tasks[e.t];
    match e
    case Want(t, dev, blockno) =>
      var g := Get(y.cache, dev, blockno);
      y.(cache := g.cache, tasks := y.tasks[t := Waits(g.b, dev, blockno)])
    case Take(t) =>
      y.(holder := y.holder[me.b := t], tasks := y.tasks[t := Holds(me.b, me.dev, me.blockno)])
    case Fill(t) =>
      var b := y.cache.bufs[me.b];
      y.(data := y.data[me.b := y.disk[Block(b)]], cache := y.cache.(bufs := y.cache.bufs[me.b := b.(valid := true)]))
    case Change(t, d) => y.(data := y.data[me.b := d])
    case Write(t) => y.(disk := y.disk[Block(y.cache.bufs[me.b]) := y.data[me.b]])
    case Drop(t) => y.(holder := y.holder[me.b := NOBODY], tasks := y.tasks[t := Leaves(me.b)])
    case Done(t) => y.(cache := Put(y.cache, me.b), tasks := y.tasks[t := Out])
  }

  // ---------------------------------------------------------------------------------------
  // The invariant

  predicate Uses(d: Doing, b: nat)
  {
    !d.Out? && d.b == b
  }

  ghost function Users(y: Sys, b: nat): set<nat>
  {
    set t | 0 <= t < |y.tasks| && Uses(y.tasks[t], b)
  }

  predicate TaskOk(y: Sys, t: nat)
    requires t < |y.tasks| && Sane(y)
  {
    var d := y.tasks[t];
    && (!d.Out? ==> d.b < |y.cache.bufs|)
    && (d.Waits? || d.Holds? ==> d.dev != 0 && Matches(y.cache.bufs[d.b], d.dev, d.blockno))
    && (d.Holds? ==> y.holder[d.b] == t)
  }

  ghost predicate BufOk(y: Sys, b: nat)
    requires b < |y.cache.bufs| && Sane(y)
  {
    && y.cache.bufs[b].refcnt == |Users(y, b)|
    && (y.holder[b] != NOBODY ==>
      0 <= y.holder[b] < |y.tasks| && y.tasks[y.holder[b]].Holds? &&
      y.tasks[y.holder[b]].b == b)
    && (y.holder[b] == NOBODY ==> Clean(y, b))
    && (y.cache.bufs[b].valid ==> y.cache.bufs[b].dev != 0)
  }

  ghost predicate Inv(y: Sys)
  {
    && Sane(y) && CacheOk(y.cache)
    && (forall t :: 0 <= t < |y.tasks| ==> TaskOk(y, t))
    && (forall b :: 0 <= b < |y.cache.bufs| ==> BufOk(y, b))
  }

  /** After binit: no buffer has contents, nobody uses one. */
  ghost predicate Initial(y: Sys)
  {
    && Sane(y) && CacheOk(y.cache)
    && (forall b :: 0 <= b < |y.cache.bufs| ==>
      y.cache.bufs[b].refcnt == 0 && !y.cache.bufs[b].valid && y.holder[b] == NOBODY)
    && (forall t :: 0 <= t < |y.tasks| ==> y.tasks[t].Out?)
  }

  // ---------------------------------------------------------------------------------------
  // Every step keeps it

  /** A buffer in use is never given to another block. */
  lemma InUseStays(y: Sys, t: nat, dev: nat, blockno: nat, s: nat)
    requires Inv(y) && Enabled(y, Want(t, dev, blockno)) && s < |y.tasks| && !y.tasks[s].Out?
    ensures var b, y' := y.tasks[s].b, Next(y, Want(t, dev, blockno));
      b < |y.cache.bufs| == |y'.cache.bufs| && Block(y'.cache.bufs[b]) == Block(y.cache.bufs[b])
  {
    assert TaskOk(y, s);
    var b := y.tasks[s].b;
    assert BufOk(y, b);
    assert s in Users(y, b);
    assert y.cache.bufs[b].refcnt > 0;
    GetKeeps(y.cache, dev, blockno);
  }

  lemma InitialInv(y: Sys)
    requires Initial(y)
    ensures Inv(y)
  {
    forall b | 0 <= b < |y.cache.bufs| ensures BufOk(y, b) { assert Users(y, b) == {}; }
  }

  /** The users of the buffers when task `t` turns from `d` to `e`. */
  lemma UsersStep(y: Sys, y': Sys, t: nat, b: nat)
    requires t < |y.tasks| == |y'.tasks| && y'.tasks == y.tasks[t := y'.tasks[t]]
    ensures Uses(y.tasks[t], b) == Uses(y'.tasks[t], b) ==> Users(y', b) == Users(y, b)
    ensures !Uses(y.tasks[t], b) && Uses(y'.tasks[t], b) ==> |Users(y', b)| == |Users(y, b)| + 1
    ensures Uses(y.tasks[t], b) && !Uses(y'.tasks[t], b) ==> |Users(y', b)| == |Users(y, b)| - 1
  {
    if !Uses(y.tasks[t], b) && Uses(y'.tasks[t], b) { assert Users(y', b) == Users(y, b) + {t}; }
    if Uses(y.tasks[t], b) && !Uses(y'.tasks[t], b) { assert Users(y', b) == Users(y, b) - {t} && t in Users(y, b); }
  }

  lemma WantInv(y: Sys, t: nat, dev: nat, blockno: nat)
    requires Inv(y) && Enabled(y, Want(t, dev, blockno))
    ensures Inv(Next(y, Want(t, dev, blockno)))
  {
    hide CacheOk; hide Users;
    GetKeeps(y.cache, dev, blockno);
    var y' := Next(y, Want(t, dev, blockno));
    Ordered(y'.cache);
    forall s | 0 <= s < |y.tasks| ensures TaskOk(y', s) {
      assert TaskOk(y, s);
      if !y.tasks[s].Out? { InUseStays(y, t, dev, blockno, s); }
    }
    forall b | 0 <= b < |y.cache.bufs| ensures BufOk(y', b) {
      assert BufOk(y, b);
      UsersStep(y, y', t, b);
      HolderUses(y, b);
    }
  }

  lemma Ordered(c: Cache)
    requires CacheOk(c)
    ensures forall j :: 0 <= j < |c.order| ==> c.order[j] < |c.bufs|
  {
  }

  lemma HolderUses(y: Sys, b: nat)
    requires Inv(y) && b < |y.cache.bufs|
    ensures y.holder[b] != NOBODY ==> y.cache.bufs[b].refcnt > 0
  {
    assert BufOk(y, b);
    if y.holder[b] != NOBODY { assert y.holder[b] in Users(y, b); }
  }

  lemma DoneInv(y: Sys, t: nat)
    requires Inv(y) && Enabled(y, Done(t))
    ensures Inv(Next(y, Done(t)))
  {
    hide CacheOk; hide Users;
    var me := y.tasks[t];
    PutKeeps(y.cache, me.b);
    var y' := Next(y, Done(t));
    Ordered(y'.cache);
    forall s | 0 <= s < |y.tasks| ensures TaskOk(y', s) { assert TaskOk(y, s); }
    forall b | 0 <= b < |y.cache.bufs| ensures BufOk(y', b) {
      assert BufOk(y, b);
      UsersStep(y, y', t, b);
    }
  }

  /** Writing one block leaves the buffers of all others as clean as they were. */
  lemma WriteInv(y: Sys, t: nat)
    requires Inv(y) && Enabled(y, Write(t))
    ensures Inv(Next(y, Write(t)))
  {
    var y', me := Next(y, Write(t)), y.tasks[t];
    assert TaskOk(y, t) && Unique(y.cache);
    hide CacheOk; hide Unique;
    forall s | 0 <= s < |y.tasks| ensures TaskOk(y', s) { assert TaskOk(y, s); }
    forall b | 0 <= b < |y.cache.bufs| ensures BufOk(y', b) {
      assert BufOk(y, b);
      assert Users(y', b) == Users(y, b);
      OtherBlock(y.cache, me.b, b);
    }
  }

  lemma OtherBlock(c: Cache, a: nat, b: nat)
    requires Unique(c) && a < |c.bufs| && b < |c.bufs| && c.bufs[a].dev != 0
    ensures Block(c.bufs[a]) == Block(c.bufs[b]) ==> a == b
  {
  }

  lemma HolderStepInv(y: Sys, e: Step)
    requires Inv(y) && Enabled(y, e) && (e.Take? || e.Drop? || e.Fill? || e.Change?)
    ensures Inv(Next(y, e))
  {
    var y', t := Next(y, e), e.t;
    assert TaskOk(y, t);
    FillCache(y.cache, y.tasks[t].b);
    hide CacheOk;
    forall s | 0 <= s < |y.tasks| ensures TaskOk(y', s) { assert TaskOk(y, s); }
    forall b | 0 <= b < |y.cache.bufs| ensures BufOk(y', b) {
      assert BufOk(y, b);
      UsersStep(y, y', t, b);
    }
  }

  lemma FillCache(c: Cache, b: nat)
    requires CacheOk(c) && b < |c.bufs|
    ensures CacheOk(c.(bufs := c.bufs[b := c.bufs[b].(valid := true)]))
  {
  }

  /** Every step of every task keeps the invariant. */
  lemma StepInv(y: Sys, e: Step)
    requires Inv(y) && Enabled(y, e)
    ensures Inv(Next(y, e))
  {
    match e
    case Want(t, dev, blockno) => WantInv(y, t, dev, blockno);
    case Write(t) => WriteInv(y, t);
    case Done(t) => DoneInv(y, t);
    case _ => HolderStepInv(y, e);
  }

  ghost predicate IsRun(run: seq<Sys>, steps: seq<Step>)
  {
    && |run| == |steps| + 1 && Initial(run[0])
    && forall i :: 0 <= i < |steps| ==> Enabled(run[i], steps[i]) && run[i + 1] == Next(run[i], steps[i])
  }

  lemma {:induction false} RunInv(run: seq<Sys>, steps: seq<Step>, n: nat)
    requires IsRun(run, steps) && n < |run|
    ensures Inv(run[n])
  {
    hide Inv; hide Enabled; hide Next; hide Initial;
    if n == 0 {
      InitialInv(run[0]);
    } else {
      RunInv(run, steps, n - 1);
      StepInv(run[n - 1], steps[n - 1]);
      assert run[n - 1 + 1] == Next(run[n - 1], steps[n - 1]);
    }
  }

  // ---------------------------------------------------------------------------------------
  // What it gives in every run

  /** A block is in one buffer at most, so it is held by one task at most.  (That a buffer is held by one
      task at most is what `Take` asks of the semaphore.) */
  lemma HeldOnce(run: seq<Sys>, steps: seq<Step>, n: nat, s: nat, t: nat)
    requires IsRun(run, steps) && n < |run| && s < |run[n].tasks| && t < |run[n].tasks|
    requires run[n].tasks[s].Holds? && run[n].tasks[t].Holds?
    requires run[n].tasks[s].b == run[n].tasks[t].b ||
      (run[n].tasks[s].dev == run[n].tasks[t].dev && run[n].tasks[s].blockno == run[n].tasks[t].blockno)
    ensures s == t
  {
    hide IsRun;
    RunInv(run, steps, n);
    assert TaskOk(run[n], s) && TaskOk(run[n], t);
  }

  /** A buffer with contents that nobody holds has the contents of its disk block. */
  lemma UnheldIsDisk(run: seq<Sys>, steps: seq<Step>, n: nat, b: nat)
    requires IsRun(run, steps) && n < |run| && b < |run[n].cache.bufs| && run[n].cache.bufs[b].valid
    requires forall t :: 0 <= t < |run[n].tasks| ==> !run[n].tasks[t].Holds? || run[n].tasks[t].b != b
    ensures var y := run[n];
      b < |y.data| && Block(y.cache.bufs[b]) in y.disk && y.data[b] == y.disk[Block(y.cache.bufs[b])]
  {
    hide IsRun;
    RunInv(run, steps, n);
    assert BufOk(run[n], b);
  }

  /** The step with which bread gets the contents: the P of bget on a buffer that has them, or the fill. */
  ghost predicate Reads(y: Sys, e: Step)
  {
    && Enabled(y, e)
    && (e.Fill? || (e.Take? && y.tasks[e.t].b < |y.cache.bufs| && y.cache.bufs[y.tasks[e.t].b].valid))
  }

  /** What bread returns: the holder sees the contents of the block it asked for. */
  lemma ReadIsDisk(run: seq<Sys>, steps: seq<Step>, n: nat)
    requires IsRun(run, steps) && n < |steps| && Reads(run[n], steps[n])
    ensures var y, me := run[n + 1], run[n].tasks[steps[n].t];
      && !me.Out? && !me.Leaves? && |y.data| == |y.cache.bufs| > me.b && y.cache.bufs[me.b].valid
      && y.tasks[steps[n].t] == Holds(me.b, me.dev, me.blockno)
      && (me.dev, me.blockno) in run[n].disk && y.data[me.b] == run[n].disk[(me.dev, me.blockno)]
      && y.disk == run[n].disk
  {
    RunInv(run, steps, n);
    assert run[n + 1] == Next(run[n], steps[n]);
    hide IsRun;
    var t := steps[n].t;
    assert TaskOk(run[n], t);
    assert BufOk(run[n], run[n].tasks[t].b);
  }

  /** bwrite of the block `k`. */
  predicate Writes(y: Sys, e: Step, k: (nat, nat))
  {
    e.Write? && Enabled(y, e) && Block(y.cache.bufs[y.tasks[e.t].b]) == k
  }

  /** As long as nobody writes a block, the disk keeps it. */
  lemma {:induction false} DiskKept(run: seq<Sys>, steps: seq<Step>, i: nat, j: nat, k: (nat, nat))
    requires IsRun(run, steps) && i <= j < |run| && k in run[i].disk
    requires forall m :: i <= m < j ==> !Writes(run[m], steps[m], k)
    ensures k in run[j].disk && run[j].disk[k] == run[i].disk[k]
  {
    if i < j {
      DiskKept(run, steps, i, j - 1, k);
      assert !Writes(run[j - 1], steps[j - 1], k);
      assert run[j - 1 + 1] == Next(run[j - 1], steps[j - 1]);
    }
  }

  /** Whoever reads a block gets what was last written to it, through whichever buffers it has gone since. */
  lemma ReadLastWritten(run: seq<Sys>, steps: seq<Step>, i: nat, j: nat)
    requires IsRun(run, steps) && i < j < |steps| && steps[i].Write? && Reads(run[j], steps[j])
    requires var me := run[j].tasks[steps[j].t];
      && !me.Out? && !me.Leaves? && Writes(run[i], steps[i], (me.dev, me.blockno))
      && forall m :: i < m < j ==> !Writes(run[m], steps[m], (me.dev, me.blockno))
    ensures var b, b' := run[i].tasks[steps[i].t].b, run[j].tasks[steps[j].t].b;
      b < |run[i].data| && b' < |run[j + 1].data| && run[j + 1].data[b'] == run[i].data[b]
  {
    var me := run[j].tasks[steps[j].t];
    assert run[i + 1] == Next(run[i], steps[i]);
    DiskKept(run, steps, i + 1, j, (me.dev, me.blockno));
    ReadIsDisk(run, steps, j);
  }

  // ---------------------------------------------------------------------------------------
  // Which buffer a new block gets

  /** The end of a brelse that leaves the buffer without users. */
  predicate Frees(y: Sys, e: Step, b: nat)
  {
    e.Done? && Enabled(y, e) && y.tasks[e.t].b == b && b < |y.cache.bufs| && y.cache.bufs[b].refcnt == 1
  }

  /** The last step before `n` that left `b` without users; -1 if there is none. */
  function LastFree(run: seq<Sys>, steps: seq<Step>, b: nat, n: nat): (m: int)
    requires |run| == |steps| + 1 && n <= |steps|
    ensures -1 <= m < n && (m >= 0 ==> Frees(run[m], steps[m], b))
    ensures forall k :: m < k < n ==> !Frees(run[k], steps[k], b)
  {
    if n == 0 then -1 else if Frees(run[n - 1], steps[n - 1], b) then n - 1 else LastFree(run, steps, b, n - 1)
  }

  /** Only such a step gives a buffer a new stamp, later than all others. */
  lemma StampStep(y: Sys, e: Step, b: nat)
    requires Inv(y) && Enabled(y, e) && b < |y.cache.bufs|
    ensures var z := Next(y, e);
      && |z.cache.bufs| == |y.cache.bufs| && y.cache.clock <= z.cache.clock
      && (!Frees(y, e, b) ==> z.cache.bufs[b].stamp == y.cache.bufs[b].stamp)
      && (Frees(y, e, b) ==> z.cache.bufs[b].stamp == y.cache.clock)
  {
    if e.Want? { GetKeeps(y.cache, e.dev, e.blockno); }
  }

  /** Stamps follow the order of those steps. */
  lemma {:induction false} StampsFollow(run: seq<Sys>, steps: seq<Step>, n: nat, a: nat, b: nat)
    requires IsRun(run, steps) && n <= |steps| && a < |run[n].cache.bufs| && b < |run[n].cache.bufs|
    ensures LastFree(run, steps, a, n) < LastFree(run, steps, b, n) ==>
      run[n].cache.bufs[a].stamp < run[n].cache.bufs[b].stamp
  {
    hide Inv; hide Enabled; hide Next; hide Initial; hide Frees;
    if n > 0 {
      var y, e := run[n - 1], steps[n - 1];
      assert run[n - 1 + 1] == Next(y, e);
      RunInv(run, steps, n - 1);
      SameBuffers(y, e);
      StampStep(y, e, a);
      StampStep(y, e, b);
      StampsFollow(run, steps, n - 1, a, b);
      StampPast(y, a);
      OneFrees(y, e, a, b);
    }
  }

  lemma SameBuffers(y: Sys, e: Step)
    requires Inv(y) && Enabled(y, e)
    ensures |Next(y, e).cache.bufs| == |y.cache.bufs|
  {
    if e.Want? { GetKeeps(y.cache, e.dev, e.blockno); }
  }

  lemma StampPast(y: Sys, a: nat)
    requires Inv(y) && a < |y.cache.bufs|
    ensures y.cache.bufs[a].stamp < y.cache.clock
  {
  }

  lemma OneFrees(y: Sys, e: Step, a: nat, b: nat)
    ensures Frees(y, e, a) && Frees(y, e, b) ==> a == b
  {
  }

  /** In every run, the buffer that a block not cached gets has no users, and of all buffers without users
      it is the one that lost its last user first (or never had one). */
  lemma VictimFreedFirst(run: seq<Sys>, steps: seq<Step>, n: nat, x: nat)
    requires IsRun(run, steps) && n < |steps| && steps[n].Want?
    requires var y := run[n];
      && x < |y.cache.bufs| && y.cache.bufs[x].refcnt == 0
      && forall b :: 0 <= b < |y.cache.bufs| ==> !Matches(y.cache.bufs[b], steps[n].dev, steps[n].blockno)
    ensures var y, me := run[n], run[n + 1].tasks[steps[n].t];
      && me.Waits? && me.b < |y.cache.bufs| && y.cache.bufs[me.b].refcnt == 0
      && LastFree(run, steps, me.b, n) <= LastFree(run, steps, x, n)
      && (me.b != x && LastFree(run, steps, x, n) >= 0 ==> LastFree(run, steps, me.b, n) < LastFree(run, steps, x, n))
  {
    var y, e := run[n], steps[n];
    assert run[n + 1] == Next(y, e);
    RunInv(run, steps, n);
    VictimIsLeastRecent(y.cache, e.dev, e.blockno, x);
    StampsFollow(run, steps, n, x, run[n + 1].tasks[e.t].b);
    var m := LastFree(run, steps, x, n);
    if m >= 0 { OneFrees(run[m], steps[m], x, run[n + 1].tasks[e.t].b); }
  }
}
