/** The virtio block driver (kernel/virtio_disk.c) and the device it talks to, over the buffers they
    share.  Setting up the device is not part of this model, nor are requests that the device fails:
    the driver panics on them. */
module Virtio {
  import opened Common
  import opened VirtioState

  class Disk {
    const desc: array<Desc>
    const free: array<bool>
    const infoB: array<int>
    const infoStatus: array<nat>
    const ops: array<Op>
    const availRing: array<nat>
    const usedRing: array<nat>
    var availIdx: nat
    var usedIdx: nat
    var usedSeen: nat
    var deviceIdx: nat
    var working: set<nat>
    var bufDisk: map<nat, bool>
    ghost var reqs: map<nat, Req>
    ghost var owner: seq<int>
    ghost var heads: seq<nat>
    ghost var comps: seq<nat>
    ghost var taken: nat
    ghost var seen: nat

    ghost function V(): View
      reads this, desc, free, infoB, infoStatus, ops, availRing, usedRing
    {
      View(desc[..], free[..], infoB[..], infoStatus[..], ops[..], availRing[..], usedRing[..], bufDisk,
           reqs, owner, heads, comps, taken, seen)
    }

    ghost predicate Shaped()
    {
      && desc.Length == free.Length == infoB.Length == infoStatus.Length == ops.Length == NUM
      && availRing.Length == usedRing.Length == NUM
      && availRing != usedRing && availRing != infoStatus && usedRing != infoStatus
    }

    /** The 16-bit indices of the rings stand for the counts of entries. */
    ghost predicate IndicesOk()
      reads this
    {
      && availIdx == |heads| % WRAP && deviceIdx == taken % WRAP
      && usedIdx == |comps| % WRAP && usedSeen == seen % WRAP
    }

    ghost predicate Valid()
      reads this, desc, free, infoB, infoStatus, ops, availRing, usedRing
    {
      Shaped() && IndicesOk() && Inv(V()) && DeviceOk(reqs, working)
    }

    /** The end of virtio_disk_init: all descriptors are unused. */
    constructor ()
      ensures Valid() && reqs == map[] && bufDisk == map[]
    {
      desc := new Desc[NUM](_ => EMPTY);
      free := new bool[NUM](_ => true);
      infoB := new int[NUM](_ => NOBODY);
      infoStatus := new nat[NUM](_ => 0);
      ops := new Op[NUM](_ => Op(0, 0));
      availRing := new nat[NUM](_ => 0);
      usedRing := new nat[NUM](_ => 0);
      availIdx, usedIdx, usedSeen, deviceIdx, working, bufDisk := 0, 0, 0, 0, {}, map[];
      reqs, heads, comps, taken, seen := map[], [], [], 0, 0;
      owner := seq(NUM, _ => NOBODY);
      new;
      hide Inv; hide DeviceOk;
      NothingWorks();
      assert Shaped() && IndicesOk();
      InitialInv(V());
    }

    static lemma NothingWorks()
      ensures DeviceOk(map[], {})
    {
    }

    /** alloc_desc: the first free descriptor. */
    method AllocDesc() returns (i: int)
      requires Shaped()
      modifies free
      ensures i == -1 ==> free[..] == old(free[..]) && forall j :: 0 <= j < NUM ==> !free[j]
      ensures i != -1 ==> 0 <= i < NUM && old(free[i]) && free[..] == old(free[..])[i := false]
      ensures i != -1 ==> forall j :: 0 <= j < i ==> !old(free[j])
    {
      for k := 0 to NUM
        invariant free[..] == old(free[..]) && forall j :: 0 <= j < k ==> !free[j]
      {
        if free[k] {
          free[k] := false;
          return k;
        }
      }
      return -1;
    }

    /** free_desc; `ok` is false where the source panics. */
    method FreeDesc(i: nat) returns (ok: bool)
      requires Shaped()
      modifies desc, free
      ensures ok <==> i < NUM && !old(free[i])
      ensures ok ==> desc[..] == old(desc[..])[i := EMPTY] && free[..] == old(free[..])[i := true]
    {
      if i >= NUM {
        return false;
      }
      if free[i] {
        return false;
      }
      desc[i] := EMPTY;
      free[i] := true;
      return true;
    }

    /** alloc3_desc: three descriptors or, if fewer are free, none. */
    method Alloc3Desc() returns (ok: bool, i0: nat, i1: nat, i2: nat)
      requires Shaped() && forall j :: 0 <= j < NUM && free[j] ==> desc[j] == EMPTY
      modifies desc, free
      ensures desc[..] == old(desc[..])
      ensures !ok ==> free[..] == old(free[..]) && exists a: nat, b: nat :: FreeAmong(free[..], a, b)
      ensures ok ==> i0 < NUM && i1 < NUM && i2 < NUM && i0 != i1 && i0 != i2 && i1 != i2
      ensures ok ==> old(free[i0]) && old(free[i1]) && old(free[i2])
      ensures ok ==> free[..] == old(free[..])[i0 := false][i1 := false][i2 := false]
    {
      i0, i1, i2, ok := 0, 0, 0, false;
      ghost var f := free[..];
      var a := AllocDesc();
      if a < 0 {
        assert FreeAmong(free[..], 0, 0);
        return;
      }
      i0 := a;
      ghost var f1 := free[..];
      var b := AllocDesc();
      if b < 0 {
        var freed := FreeDesc(i0);
        assert free[..] == f && desc[..] == old(desc[..]);
        assert FreeAmong(free[..], i0, i0);
        return;
      }
      i1 := b;
      var c := AllocDesc();
      if c < 0 {
        var freed := FreeDesc(i0);
        freed := FreeDesc(i1);
        assert free[..] == f && desc[..] == old(desc[..]);
        assert FreeAmong(free[..], i0, i1);
        return;
      }
      i2 := c;
      ok := true;
    }

    /** virtio_disk_rw up to its sleep.  It sleeps either for descriptors, with nothing changed, or for
        the completion of the request just submitted. */
    method Start(b: nat, blockno: nat, write: bool) returns (ok: bool, i0: nat, ghost i1: nat, ghost i2: nat)
      requires Valid() && (forall h :: h in reqs ==> reqs[h].b != b) && blockno < 0x1_0000_0000
      modifies this, desc, free, infoB, infoStatus, ops, availRing
      ensures Valid()
      ensures !ok ==> V() == old(V()) && |reqs| == 21
      ensures ok ==>
        CanSubmit(old(V()), i0, i1, i2, b) &&
        V() == Submit(old(V()), i0, i1, i2, b, write, blockno)
      ensures ok ==> i0 !in old(reqs) && bufDisk == old(bufDisk)[b := true]
      ensures ok ==> i0 in reqs && reqs == old(reqs)[i0 := reqs[i0]] && reqs[i0].b == b && reqs[i0].write == write
      ensures ok ==> reqs[i0].blockno == blockno
      ensures ok ==> (ops[i0].sector * 512 == blockno * BSIZE <==> blockno < 0x8000_0000)
      ensures ok ==> forall i :: 0 <= i < NUM ==> free[i] == (old(free[i]) && i != i0 && i != i1 && i != i2)
    {
      hide Inv; hide Sector;
      BytesOfBlock(blockno);
      ghost var v := V();
      EmptyAt(v);
      var j1, j2;
      ok, i0, j1, j2 := Alloc3Desc();
      i1, i2 := j1, j2;
      if !ok {
        assert V() == v;
        FewFree(v);
        return;
      }
      FreshHead(v, i0);
      Post(b, blockno, write, i0, j1, j2, v);
    }

    /** virtio_disk_rw once it has its descriptors: fill them in and tell the device. */
    method Post(b: nat, blockno: nat, write: bool, i0: nat, i1: nat, i2: nat, ghost v: View)
      requires Shaped() && IndicesOk() && DeviceOk(reqs, working) && CanSubmit(v, i0, i1, i2, b) && SizesOk(v) &&
        i0 !in v.reqs
      requires V() == v.(free := v.free[i0 := false][i1 := false][i2 := false])
      modifies this, desc, infoB, infoStatus, ops, availRing
      ensures Valid() && V() == Submit(v, i0, i1, i2, b, write, blockno)
    {
      hide Inv; hide DeviceOk; hide Sector;
      SameWorking(reqs, working, i0, Req(b, i1, i2, write, blockno, Queued));
      SubmitInv(v, i0, i1, i2, b, write, blockno);
      Fill(b, write, Sector(blockno), i0, i1, i2);
      Publish(i0);
      heads, reqs := heads + [i0], reqs[i0 := Req(b, i1, i2, write, blockno, Queued)];
      owner := owner[i0 := i0][i1 := i0][i2 := i0];
    }

    /** The head goes into the available ring, and then the index moves on. */
    method Publish(i0: nat)
      requires Shaped() && IndicesOk()
      modifies this`availIdx, availRing
      ensures availRing[..] == old(availRing[..])[|heads| % NUM := i0] && availIdx == (|heads| + 1) % WRAP
    {
      IndexInRing(|heads|);
      availRing[availIdx % NUM] := i0;
      availIdx := (availIdx + 1) % WRAP;
    }

    /** The descriptors of a request are filled in, and its buffer marked. */
    method Fill(b: nat, write: bool, sector: nat, i0: nat, i1: nat, i2: nat)
      requires Shaped() && i0 < NUM && i1 < NUM && i2 < NUM && i0 != i1 && i0 != i2 && i1 != i2
      modifies this`bufDisk, desc, infoB, infoStatus, ops
      ensures ops[..] == old(ops[..])[i0 := Op(if write then 1 else 0, sector)]
      ensures desc[..] == old(desc[..])[i0 := Desc(Header(i0), 16, F_NEXT, i1)]
                                       [i1 := Desc(Data(b), BSIZE, (if write then 0 else F_WRITE) + F_NEXT, i2)]
                                       [i2 := Desc(StatusOf(i0), 1, F_WRITE, 0)]
      ensures infoStatus[..] == old(infoStatus[..])[i0 := 0xff] && infoB[..] == old(infoB[..])[i0 := b]
      ensures bufDisk == old(bufDisk)[b := true]
    {
      ops[i0] := Op(if write then 1 else 0, sector);
      desc[i0] := Desc(Header(i0), 16, F_NEXT, i1);
      desc[i1] := Desc(Data(b), BSIZE, if write then 0 else F_WRITE, 0);
      desc[i1] := desc[i1].(flags := desc[i1].flags + F_NEXT);
      desc[i1] := desc[i1].(next := i2);
      infoStatus[i0] := 0xff;
      desc[i2] := Desc(StatusOf(i0), 1, F_WRITE, 0);
      bufDisk := bufDisk[b := true];
      infoB[i0] := b;
    }

    /** The device takes the next request; it reads it from the rings and descriptors alone. */
    method DeviceTake() returns (got: bool, h: nat, op: Op, b: nat, toMemory: bool)
      requires Valid()
      modifies this`reqs, this`taken, this`deviceIdx, this`working
      ensures Valid()
      ensures got <==> old(taken) < |old(heads)|
      ensures !got ==> V() == old(V())
      ensures got ==> h == old(heads)[old(taken)] && h in old(reqs) && V() == Take(old(V()))
      ensures got ==> var r := old(reqs)[h];
        op.kind == (if r.write then 1 else 0) && b == r.b && (toMemory <==> !r.write) &&
        (r.blockno < 0x8000_0000 ==> op.sector * 512 == r.blockno * BSIZE)
    {
      hide Inv; hide DeviceOk;
      ghost var v := V();
      got, h, op, b, toMemory := false, 0, Op(0, 0), 0, false;
      RingFacts(v);
      if deviceIdx == availIdx {
        return;
      }
      h := NextAvail();
      TakeInv(v);
      op, b, toMemory := ReadChain(h);
      got := true;
      MarkTaken(h);
    }

    /** The device moves on to the next entry, and works on the request. */
    method MarkTaken(h: nat)
      requires Valid() && taken < |heads| && h == heads[taken] && h in reqs
      modifies this`reqs, this`taken, this`deviceIdx, this`working
      ensures Valid() && V() == Take(old(V()))
    {
      hide Inv; hide DeviceOk;
      ghost var v := V();
      TakeInv(v);
      TakenWorking(reqs, working, h);
      IndexInRing(taken);
      deviceIdx := (deviceIdx + 1) % WRAP;
      working := working + {h};
      reqs, taken := reqs[h := reqs[h].(phase := Working)], taken + 1;
      assert V() == Take(v);
    }

    /** The next entry of the available ring. */
    method NextAvail() returns (h: nat)
      requires Valid() && taken < |heads|
      ensures h == heads[taken]
    {
      hide Inv; hide DeviceOk;
      RingFacts(V());
      IndexInRing(taken);
      h := availRing[deviceIdx % NUM];
    }

    /** What the device reads, following the chain from `h`. */
    method ReadChain(h: nat) returns (op: Op, b: nat, toMemory: bool)
      requires Valid() && h in reqs
      ensures var r := reqs[h];
        op.kind == (if r.write then 1 else 0) && b == r.b && (toMemory <==> !r.write) &&
        (r.blockno < 0x8000_0000 ==> op.sector * 512 == r.blockno * BSIZE)
    {
      hide Inv; hide DeviceOk;
      ChainSays(V(), h);
      op := ops[h];
      var d1 := desc[h].next;
      toMemory := desc[d1].flags / 2 % 2 == 1;
      b := BufferAt(desc[d1].addr);
    }

    /** The device reports request `h`, which it has taken, as done; it may do so in any order. */
    method DeviceComplete(h: nat)
      requires Valid() && h in reqs && reqs[h].phase == Working
      modifies this`reqs, this`comps, this`usedIdx, this`working, infoStatus, usedRing
      ensures h < NUM && Valid() && SizesOk(old(V())) && V() == Complete(old(V()), h)
    {
      hide Inv; hide DeviceOk;
      DoneWorking(reqs, working, h);
      ghost var v := V();
      CompleteInv(v, h);
      infoStatus[h] := 0;
      PutUsed(h);
      working := working - {h};
      reqs, comps := reqs[h := reqs[h].(phase := Done)], comps + [h];
      assert V() == Complete(v, h);
    }

    /** The head goes into the used ring, and then the index moves on. */
    method PutUsed(h: nat)
      requires Shaped() && IndicesOk()
      modifies this`usedIdx, usedRing
      ensures usedRing[..] == old(usedRing[..])[|comps| % NUM := h] && usedIdx == (|comps| + 1) % WRAP
    {
      IndexInRing(|comps|);
      usedRing[usedIdx % NUM] := h;
      usedIdx := (usedIdx + 1) % WRAP;
    }

    /** Any steps that the device can take. */
    method DeviceActs(acts: seq<Act>)
      requires Valid()
      modifies this`reqs, this`taken, this`deviceIdx, this`working, this`comps, this`usedIdx, infoStatus, usedRing
      ensures Valid() && seen == old(seen) && usedSeen == old(usedSeen) && bufDisk == old(bufDisk)
      ensures Worked(old(reqs), reqs)
    {
      hide Inv; hide Worked; hide IndicesOk;
      NothingWorked(reqs);
      for k := 0 to |acts|
        invariant Valid() && seen == old(seen) && usedSeen == old(usedSeen) && bufDisk == old(bufDisk)
        invariant Worked(old(reqs), reqs)
      {
        ghost var v := V();
        if acts[k].Fetch? {
          var got, h, op, b, toMemory := DeviceTake();
          if got { TookOne(old(reqs), v); }
        } else if acts[k].h in working {
          DeviceComplete(acts[k].h);
          CompletedOne(old(reqs), v, acts[k].h);
        }
      }
    }

    /** virtio_disk_intr, with whatever the device does before each look at its index: in the end nothing
        reported is left unseen, and `disk` has been cleared on exactly the buffers of the requests seen. */
    method Intr(acts: seq<seq<Act>>) returns (ok: bool)
      requires Valid()
      modifies this`usedSeen, this`bufDisk, this`reqs, this`seen
      modifies this`taken, this`deviceIdx, this`working, this`comps, this`usedIdx, infoStatus, usedRing
      ensures ok && Valid() && seen == |comps| && bufDisk.Keys == old(bufDisk).Keys
      ensures Progressed(old(reqs), reqs) && forall h :: h in reqs ==> reqs[h].phase != Done
      ensures forall b :: b in bufDisk ==> bufDisk[b] == (old(bufDisk)[b] && !Cleared(old(reqs), reqs, b))
    {
      hide Inv; hide Cleared; hide Progressed; hide Worked;
      ghost var r0 := reqs;
      ProgressAtStart(r0);
      var round := 0;
      ok := true;
      while true
        invariant ok && Valid() && Progressed(r0, reqs) && bufDisk.Keys == old(bufDisk).Keys && round <= |acts|
        invariant forall b :: b in bufDisk ==> bufDisk[b] == (old(bufDisk)[b] && !Cleared(r0, reqs, b))
        decreases |acts| - round, |comps| - seen
      {
        if round < |acts| {
          ghost var r1 := reqs;
          DeviceActs(acts[round]);
          WorkedOn(r0, r1, reqs);
          round := round + 1;
        }
        ghost var v := V();
        RingFacts(v);
        if usedSeen == usedIdx {
          AllAreSeen(v);
          return;
        }
        ok := Report();
        OneMoreSeen(r0, v);
      }
    }

    /** One round of the loop of virtio_disk_intr. */
    method Report() returns (ok: bool)
      requires Valid() && usedSeen != usedIdx
      modifies this`usedSeen, this`bufDisk, this`reqs, this`seen
      ensures ok && Valid() && old(seen) < |comps| && comps[old(seen)] in old(reqs) && V() == Observe(old(V()))
      ensures old(reqs)[comps[old(seen)]].phase == Done
      ensures var b := old(reqs)[comps[old(seen)]].b; b in old(bufDisk) && bufDisk == old(bufDisk)[b := false]
    {
      hide Inv;
      ghost var v := V();
      RingFacts(v);
      ObserveInv(v);
      IndexInRing(seen);
      var id := usedRing[usedSeen % NUM];
      ChainSays(v, id);
      if infoStatus[id] != 0 {
        return false;
      }
      var b := infoB[id];
      FlagHere(v, id);
      bufDisk := bufDisk[b := false];
      usedSeen := (usedSeen + 1) % WRAP;
      reqs, seen := reqs[id := reqs[id].(phase := Seen)], seen + 1;
      assert V() == Observe(v);
      ok := true;
    }

    /** virtio_disk_rw after its sleep, once `b->disk` is clear: the descriptors are freed. */
    method Finish(b: nat, i0: nat) returns (ok: bool)
      requires Valid() && i0 in reqs && reqs[i0].b == b && b in bufDisk && !bufDisk[b]
      modifies this`reqs, this`owner, desc, free, infoB
      ensures ok && Valid() && i0 < NUM && SizesOk(old(V())) && OwnsOk(old(V()), i0) && V() == Retire(old(V()), i0)
      ensures reqs == old(reqs) - {i0}
      ensures forall i :: 0 <= i < NUM ==>
        free[i] == (old(free[i]) || i == i0 || i == old(reqs)[i0].d1 || i == old(reqs)[i0].d2)
    {
      hide Inv; hide DeviceOk; hide OwnsOk;
      ghost var v := V();
      ok := FreeRequest(b, i0);
      ThreeFreed(v, i0);
      assert free[..] == Retire(v, i0).free;
    }

    /** The entry is cleared and its chain freed. */
    method FreeRequest(b: nat, i0: nat) returns (ok: bool)
      requires Valid() && i0 in reqs && reqs[i0].b == b && b in bufDisk && !bufDisk[b]
      modifies this`reqs, this`owner, desc, free, infoB
      ensures ok && Valid() && i0 < NUM && SizesOk(old(V())) && OwnsOk(old(V()), i0) && V() == Retire(old(V()), i0)
      ensures reqs == old(reqs) - {i0}
    {
      hide Inv;
      ghost var v := V();
      FlagHere(v, i0);
      RetireInv(v, i0);
      ChainSays(v, i0);
      infoB[i0] := NOBODY;
      ok := FreeChain(i0, reqs[i0].d1, reqs[i0].d2);
      reqs, owner := reqs - {i0}, owner[i0 := NOBODY][v.reqs[i0].d1 := NOBODY][v.reqs[i0].d2 := NOBODY];
      assert V() == Retire(v, i0);
    }

    /** free_chain, on the chain of a request. */
    method FreeChain(head: nat, ghost d1: nat, ghost d2: nat) returns (ok: bool)
      requires Shaped() && head < NUM && d1 < NUM && d2 < NUM && head != d1 && head != d2 && d1 != d2
      requires desc[head].flags % 2 == 1 && desc[head].next == d1 && desc[d1].flags % 2 == 1 && desc[d1].next == d2
      requires desc[d2].flags % 2 == 0 && !free[head] && !free[d1] && !free[d2]
      modifies desc, free
      ensures ok && desc[..] == old(desc[..])[head := EMPTY][d1 := EMPTY][d2 := EMPTY]
      ensures free[..] == old(free[..])[head := true][d1 := true][d2 := true]
    {
      var i := head;
      ghost var done := 0;
      while true
        invariant 0 <= done <= 2 && i == (if done == 0 then head else if done == 1 then d1 else d2)
        invariant desc[..] == (if done == 0 then old(desc[..]) else if done == 1 then old(desc[..])[head := EMPTY]
          else old(desc[..])[head := EMPTY][d1 := EMPTY])
        invariant free[..] == (if done == 0 then old(free[..]) else if done == 1 then old(free[..])[head := true]
          else old(free[..])[head := true][d1 := true])
        decreases 2 - done
      {
        assert desc[i] == desc[..][i] && free[i] == free[..][i];
        var flag, nxt := desc[i].flags, desc[i].next;
        ok := FreeDesc(i);
        if flag % 2 == 1 {
          i := nxt;
          done := done + 1;
        } else {
          break;
        }
      }
    }
  }

  /** The buffer at an address. */
  function BufferAt(a: Target): nat
  {
    if a.Data? then a.b else 0
  }

  /** The only free descriptors are among these. */
  ghost predicate FreeAmong(free: seq<bool>, a: nat, b: nat)
  {
    forall j :: 0 <= j < |free| && free[j] ==> j == a || j == b
  }

  /** The state after start-up. */
  lemma InitialInv(v: View)
    requires SizesOk(v) && v.reqs == map[] && v.heads == [] && v.comps == [] && v.taken == 0 && v.seen == 0
    requires forall i :: 0 <= i < NUM ==> v.free[i] && v.desc[i] == EMPTY && v.owner[i] == NOBODY
    ensures Inv(v)
  {
  }

  /** Comparing the 16-bit indices tells whether a ring has an unconsumed entry, and the entry is there. */
  lemma RingFacts(v: View)
    requires Inv(v)
    ensures SizesOk(v) && v.taken <= |v.heads| && v.seen <= |v.comps|
    ensures v.taken % WRAP == |v.heads| % WRAP <==> v.taken == |v.heads|
    ensures v.seen % WRAP == |v.comps| % WRAP <==> v.seen == |v.comps|
    ensures v.taken < |v.heads| ==> v.avail[v.taken % NUM] == v.heads[v.taken]
    ensures v.seen < |v.comps| ==> v.used[v.seen % NUM] == v.comps[v.seen]
  {
    hide Lists;
    RingsHold(v, v.heads, v.taken, Queued, v.avail, 0);
    RingsHold(v, v.comps, v.seen, Done, v.used, 0);
  }

  lemma FreshHead(v: View, i: nat)
    requires Inv(v) && i < NUM && SizesOk(v) && v.free[i]
    ensures i !in v.reqs
  {
    NotAHead(v, i);
  }

  lemma EmptyAt(v: View)
    requires Inv(v)
    ensures SizesOk(v) && forall j :: 0 <= j < NUM && v.free[j] ==> v.desc[j] == EMPTY
  {
  }

  /** A task goes to sleep for descriptors only when 21 requests are in flight. */
  lemma FewFree(v: View)
    requires Inv(v) && exists a: nat, b: nat :: FreeAmong(v.free, a, b)
    ensures |v.reqs| == 21
  {
    var a: nat, b: nat :| FreeAmong(v.free, a, b);
    Smaller(FreeSet(v), {a, b});
    FullMeans21(v);
  }

  lemma FlagHere(v: View, h: nat)
    requires Inv(v) && h in v.reqs
    ensures v.reqs[h].b in v.owned && (v.owned[v.reqs[h].b] <==> v.reqs[h].phase != Seen)
    ensures forall g :: g in v.reqs && v.reqs[g].b == v.reqs[h].b ==> g == h
  {
    assert FlagOk(v, h);
  }

  /** What the device may do next: fetch a request, or report one that it has carried out. */
  datatype Act = Fetch | Finish(h: nat)

  ghost predicate DeviceOk(reqs: map<nat, Req>, working: set<nat>)
  {
    forall h :: h in working <==> h in reqs && reqs[h].phase == Working
  }

  lemma ThreeFreed(v: View, h: nat)
    requires SizesOk(v) && h in v.reqs && OwnsOk(v, h)
    ensures h < NUM && v.reqs[h].d1 < NUM && v.reqs[h].d2 < NUM
    ensures var w, r := Retire(v, h), v.reqs[h];
      |w.free| == NUM && forall i :: 0 <= i < NUM ==> w.free[i] == (v.free[i] || i == h || i == r.d1 || i == r.d2)
  {
  }

  lemma TakenWorking(reqs: map<nat, Req>, working: set<nat>, h: nat)
    requires DeviceOk(reqs, working) && h in reqs
    ensures DeviceOk(reqs[h := reqs[h].(phase := Working)], working + {h})
  {
  }

  lemma SameWorking(reqs: map<nat, Req>, working: set<nat>, h: nat, r: Req)
    requires DeviceOk(reqs, working) && h !in reqs && r.phase == Queued
    ensures DeviceOk(reqs[h := r], working)
  {
  }

  lemma DoneWorking(reqs: map<nat, Req>, working: set<nat>, h: nat)
    requires DeviceOk(reqs, working) && h in reqs
    ensures DeviceOk(reqs[h := reqs[h].(phase := Done)], working - {h})
  {
  }

  /** Requests have only changed their phases. */
  ghost predicate SameRequests(r0: map<nat, Req>, r: map<nat, Req>)
  {
    r.Keys == r0.Keys && forall h :: h in r0 ==> r[h] == r0[h].(phase := r[h].phase)
  }

  /** The device has only fetched and reported requests. */
  ghost predicate Worked(r0: map<nat, Req>, r: map<nat, Req>)
  {
    && SameRequests(r0, r)
    && forall h :: h in r0 ==>
      r[h].phase == r0[h].phase || (r0[h].phase != Seen && r0[h].phase != Done && r[h].phase != Seen)
  }

  /** Requests have been fetched, reported and seen, in this order; what was reported or seen before is
      still. */
  ghost predicate Progressed(r0: map<nat, Req>, r: map<nat, Req>)
  {
    && SameRequests(r0, r)
    && forall h :: h in r0 ==>
      (r0[h].phase == Seen ==> r[h].phase == Seen) && (r0[h].phase == Done ==> r[h].phase in {Done, Seen})
  }

  /** A request for `b` has been seen since. */
  ghost predicate Cleared(r0: map<nat, Req>, r: map<nat, Req>, b: nat)
  {
    exists h :: h in r0 && h in r && r0[h].b == b && r0[h].phase != Seen && r[h].phase == Seen
  }

  lemma NothingWorked(r: map<nat, Req>)
    ensures Worked(r, r)
  {
  }

  lemma TookOne(r0: map<nat, Req>, v: View)
    requires Inv(v) && Worked(r0, v.reqs) && v.taken < |v.heads| && v.heads[v.taken] in v.reqs
    ensures Worked(r0, Take(v).reqs)
  {
    hide ChainsOk; hide FlagsOk; hide OwnersOk; hide EmptyOk; hide Held; hide CompsOk;
    assert v.heads[v.taken..][0] == v.heads[v.taken];
    assert v.heads[v.taken] in InPhase(v, Queued);
  }

  lemma CompletedOne(r0: map<nat, Req>, v: View, h: nat)
    requires SizesOk(v) && Worked(r0, v.reqs) && h in v.reqs && h < NUM && v.reqs[h].phase == Working
    ensures Worked(r0, Complete(v, h).reqs)
  {
  }

  lemma ProgressAtStart(r: map<nat, Req>)
    ensures Progressed(r, r) && forall b :: !Cleared(r, r, b)
  {
  }

  lemma WorkedOn(r0: map<nat, Req>, r1: map<nat, Req>, r: map<nat, Req>)
    requires Progressed(r0, r1) && Worked(r1, r)
    ensures Progressed(r0, r) && forall b :: Cleared(r0, r, b) <==> Cleared(r0, r1, b)
  {
    forall b ensures Cleared(r0, r, b) <==> Cleared(r0, r1, b) {
      if Cleared(r0, r1, b) {
        var h :| h in r0 && h in r1 && r0[h].b == b && r0[h].phase != Seen && r1[h].phase == Seen;
        assert r[h].phase == Seen;
      }
    }
  }

  lemma OneMoreSeen(r0: map<nat, Req>, v: View)
    requires Progressed(r0, v.reqs) && v.seen < |v.comps| && v.comps[v.seen] in v.reqs &&
      v.reqs[v.comps[v.seen]].phase == Done
    ensures Progressed(r0, Observe(v).reqs)
    ensures forall b :: Cleared(r0, Observe(v).reqs, b) <==> Cleared(r0, v.reqs, b) || b == v.reqs[v.comps[v.seen]].b
  {
    var h, w := v.comps[v.seen], Observe(v);
    assert h in r0 && r0[h].phase != Seen && h in w.reqs && w.reqs[h].phase == Seen && r0[h].b == v.reqs[h].b;
    forall b ensures Cleared(r0, w.reqs, b) <==> Cleared(r0, v.reqs, b) || b == v.reqs[h].b {
      if Cleared(r0, v.reqs, b) {
        var g :| g in r0 && g in v.reqs && r0[g].b == b && r0[g].phase != Seen && v.reqs[g].phase == Seen;
        assert w.reqs[g].phase == Seen;
      }
    }
  }

  lemma AllAreSeen(v: View)
    requires Inv(v) && v.seen == |v.comps|
    ensures forall h :: h in v.reqs ==> v.reqs[h].phase != Done
  {
    assert v.comps[v.seen..] == [];
    assert InPhase(v, Done) == {};
    forall h | h in v.reqs ensures v.reqs[h].phase != Done { assert v.reqs[h].phase == Done ==> h in InPhase(v, Done); }
  }
}
