/** The virtio block driver's shared state (kernel/virtio_disk.c; split virtqueues of section 2.6 and
    block device of section 5.2 of Virtio 1.1), the steps of driver, device and interrupt handler, and
    what they keep.  Whoever holds vdisk_lock runs alone, so a step is what happens between taking
    the lock, or returning from sleep, and giving it up. */
module VirtioState {
  import opened Common

  const NUM: nat := 64
  const WRAP: nat := 0x1_0000
  const BSIZE: nat := 1024
  const F_NEXT: nat := 1
  const F_WRITE: nat := 2

  /** What a descriptor's address field can point to. */
  datatype Target = Null | Header(i: nat) | Data(b: nat) | StatusOf(i: nat)

  datatype Desc = Desc(addr: Target, len: nat, flags: nat, next: nat)

  /** struct virtio_blk_req */
  datatype Op = Op(kind: nat, sector: nat)

  /** Where a request stands: in the available ring; with the device; in the used ring; seen by the
      interrupt handler, but its descriptors not yet freed. */
  datatype Phase = Queued | Working | Done | Seen

  datatype Req = Req(b: nat, d1: nat, d2: nat, write: bool, blockno: nat, phase: Phase)

  const NOBODY: int := -1

  /** The contents of `disk` and of its rings.  The last six fields are history: the requests in flight
      by head descriptor, the request each descriptor belongs to, all heads ever submitted and ever
      completed, and how far the device and the interrupt handler have come in them. */
  datatype View = View(desc: seq<Desc>, free: seq<bool>, info: seq<int>, status: seq<nat>, ops: seq<Op>,
                       avail: seq<nat>, used: seq<nat>, owned: map<nat, bool>,
                       reqs: map<nat, Req>, owner: seq<int>, heads: seq<nat>, comps: seq<nat>, taken: nat, seen: nat)

  // ---------------------------------------------------------------------------------------
  // The invariant

  ghost predicate SizesOk(v: View)
  {
    |v.desc| == |v.free| == |v.info| == |v.status| == |v.ops| == |v.avail| == |v.used| == |v.owner| == NUM
  }

  /** The three descriptors of a request are its own, and its three different ones. */
  predicate OwnsOk(v: View, h: nat)
    requires h in v.reqs && |v.owner| == NUM
  {
    var r := v.reqs[h];
    && h < NUM && r.d1 < NUM && r.d2 < NUM && h != r.d1 && h != r.d2 && r.d1 != r.d2
    && v.owner[h] == h && v.owner[r.d1] == h && v.owner[r.d2] == h
  }

  predicate OwnerOk(v: View, i: nat)
    requires i < |v.owner| == |v.free|
  {
    && (v.free[i] <==> v.owner[i] == NOBODY)
    && (v.owner[i] != NOBODY ==>
          v.owner[i] >= 0 && var h: nat := v.owner[i];
            h in v.reqs && (h == i || v.reqs[h].d1 == i || v.reqs[h].d2 == i))
  }

  /** Every descriptor is free or part of exactly one request in flight. */
  ghost predicate OwnersOk(v: View)
  {
    && SizesOk(v)
    && (forall h :: h in v.reqs ==> OwnsOk(v, h))
    && (forall i :: 0 <= i < NUM ==> OwnerOk(v, i))
  }

  /** b->blockno * (BSIZE / 512), in 32 bits. */
  function Sector(blockno: nat): nat
  {
    blockno * 2 % 0x1_0000_0000
  }

  /** The sectors of 512 bytes begin where the block does, as long as the 32 bits are enough. */
  lemma BytesOfBlock(blockno: nat)
    ensures blockno < 0x8000_0000 ==> Sector(blockno) * 512 == blockno * BSIZE
    ensures 0x8000_0000 <= blockno < 0x1_0000_0000 ==> Sector(blockno) * 512 != blockno * BSIZE
  {
  }

  /** The descriptors of a request say what was asked for. */
  predicate ChainOk(v: View, h: nat)
    requires h in v.reqs && |v.desc| == |v.info| == |v.ops| == |v.status| == NUM
    requires h < NUM && v.reqs[h].d1 < NUM && v.reqs[h].d2 < NUM
  {
    var r := v.reqs[h];
    && v.desc[h] == Desc(Header(h), 16, F_NEXT, r.d1)
    && v.desc[r.d1] == Desc(Data(r.b), BSIZE, (if r.write then 0 else F_WRITE) + F_NEXT, r.d2)
    && v.desc[r.d2] == Desc(StatusOf(h), 1, F_WRITE, 0)
    && v.ops[h] == Op(if r.write then 1 else 0, Sector(r.blockno))
    && v.info[h] == r.b
    && v.status[h] == (if r.phase.Queued? || r.phase.Working? then 0xff else 0)
  }

  /** `b->disk` is set from the submission of a request for `b` until its completion has been seen; a
      buffer is in one request at a time. */
  predicate FlagOk(v: View, h: nat)
    requires h in v.reqs
  {
    v.reqs[h].b in v.owned && (v.owned[v.reqs[h].b] <==> v.reqs[h].phase != Seen)
  }

  ghost function InPhase(v: View, p: Phase): set<nat>
  {
    set h | h in v.reqs && v.reqs[h].phase == p
  }

  /** `xs` lists the elements of `s`, each once. */
  ghost predicate Lists(xs: seq<nat>, s: set<nat>)
  {
    (forall j, k :: 0 <= j < k < |xs| ==> xs[j] != xs[k]) && forall x :: x in xs <==> x in s
  }

  /** The entries from `from` on are the heads of the requests in phase `p`. */
  ghost predicate RingOk(v: View, entries: seq<nat>, from: nat, p: Phase)
  {
    from <= |entries| && Lists(entries[from..], InPhase(v, p))
  }

  /** The ring holds every entry not yet consumed. */
  ghost predicate Held(ring: seq<nat>, entries: seq<nat>, from: nat)
    requires |ring| == NUM
  {
    forall k :: from <= k < |entries| ==> ring[k % NUM] == entries[k]
  }

  ghost predicate ChainsOk(v: View)
    requires OwnersOk(v)
  {
    forall h :: h in v.reqs ==> OwnsOk(v, h) && ChainOk(v, h)
  }

  /** A free descriptor is zero. */
  ghost predicate EmptyOk(v: View)
    requires OwnersOk(v)
  {
    forall i :: 0 <= i < NUM && v.free[i] ==> v.desc[i] == EMPTY
  }

  ghost predicate FlagsOk(v: View)
  {
    && (forall h :: h in v.reqs ==> FlagOk(v, h))
    && (forall h, g :: h in v.reqs && g in v.reqs && v.reqs[h].b == v.reqs[g].b ==> h == g)
  }

  ghost predicate HeadsOk(v: View)
    requires OwnersOk(v)
  {
    RingOk(v, v.heads, v.taken, Queued) && Held(v.avail, v.heads, v.taken)
  }

  ghost predicate CompsOk(v: View)
    requires OwnersOk(v)
  {
    RingOk(v, v.comps, v.seen, Done) && Held(v.used, v.comps, v.seen)
  }

  ghost predicate Inv(v: View)
  {
    OwnersOk(v) && EmptyOk(v) && ChainsOk(v) && FlagsOk(v) && HeadsOk(v) && CompsOk(v)
  }

  // ---------------------------------------------------------------------------------------
  // The steps

  /** virtio_disk_rw, from the allocation of the descriptors to the notification of the device. */
  function Submit(v: View, i0: nat, i1: nat, i2: nat, b: nat, write: bool, blockno: nat): View
    requires SizesOk(v) && i0 < NUM && i1 < NUM && i2 < NUM
  {
    v.(free := v.free[i0 := false][i1 := false][i2 := false],
       ops := v.ops[i0 := Op(if write then 1 else 0, Sector(blockno))],
       desc := v.desc[i0 := Desc(Header(i0), 16, F_NEXT, i1)]
                     [i1 := Desc(Data(b), BSIZE, (if write then 0 else F_WRITE) + F_NEXT, i2)]
                     [i2 := Desc(StatusOf(i0), 1, F_WRITE, 0)],
       status := v.status[i0 := 0xff], info := v.info[i0 := b], owned := v.owned[b := true],
       avail := v.avail[|v.heads| % NUM := i0], heads := v.heads + [i0],
       reqs := v.reqs[i0 := Req(b, i1, i2, write, blockno, Queued)],
       owner := v.owner[i0 := i0][i1 := i0][i2 := i0])
  }

  ghost predicate CanSubmit(v: View, i0: nat, i1: nat, i2: nat, b: nat)
  {
    && Inv(v) && i0 < NUM && i1 < NUM && i2 < NUM && i0 != i1 && i0 != i2 && i1 != i2
    && v.free[i0] && v.free[i1] && v.free[i2] && forall h :: h in v.reqs ==> v.reqs[h].b != b
  }

  /** The device takes the next entry of the available ring. */
  function Take(v: View): View
    requires v.taken < |v.heads| && v.heads[v.taken] in v.reqs
  {
    var h := v.heads[v.taken];
    v.(reqs := v.reqs[h := v.reqs[h].(phase := Working)], taken := v.taken + 1)
  }

  /** The device has carried out request `h`. */
  function Complete(v: View, h: nat): View
    requires SizesOk(v) && h in v.reqs && h < NUM
  {
    v.(reqs := v.reqs[h := v.reqs[h].(phase := Done)], status := v.status[h := 0],
       used := v.used[|v.comps| % NUM := h], comps := v.comps + [h])
  }

  /** One round of the loop of virtio_disk_intr. */
  function Observe(v: View): View
    requires v.seen < |v.comps| && v.comps[v.seen] in v.reqs
  {
    var h := v.comps[v.seen];
    v.(reqs := v.reqs[h := v.reqs[h].(phase := Seen)], owned := v.owned[v.reqs[h].b := false], seen := v.seen + 1)
  }

  /** The end of virtio_disk_rw. */
  function Retire(v: View, h: nat): View
    requires SizesOk(v) && h in v.reqs && h < NUM && v.reqs[h].d1 < NUM && v.reqs[h].d2 < NUM
  {
    var r := v.reqs[h];
    v.(info := v.info[h := NOBODY], desc := v.desc[h := EMPTY][r.d1 := EMPTY][r.d2 := EMPTY],
       free := v.free[h := true][r.d1 := true][r.d2 := true],
         owner := v.owner[h := NOBODY][r.d1 := NOBODY][r.d2 := NOBODY],
       reqs := v.reqs - {h})
  }

  const EMPTY: Desc := Desc(Null, 0, 0, 0)

  // ---------------------------------------------------------------------------------------
  // What the invariant gives

  /** The descriptors of different requests in flight are different. */
  lemma TriplesDisjoint(v: View, h: nat, g: nat)
    requires OwnersOk(v) && h in v.reqs && g in v.reqs && h != g
    ensures {h, v.reqs[h].d1, v.reqs[h].d2} !! {g, v.reqs[g].d1, v.reqs[g].d2}
  {
    assert OwnsOk(v, h) && OwnsOk(v, g);
  }

  ghost function FreeSet(v: View): set<nat>
  {
    set i | 0 <= i < |v.free| && v.free[i]
  }

  /** The descriptors of the requests whose heads are in `hs`. */
  ghost function DescsOf(v: View, hs: set<nat>): set<nat>
    requires |v.owner| == NUM
  {
    set i | 0 <= i < NUM && v.owner[i] >= 0 && v.owner[i] in hs
  }

  lemma {:induction false} ThreeEach(v: View, hs: set<nat>)
    requires OwnersOk(v) && forall h :: h in hs ==> h in v.reqs
    ensures |DescsOf(v, hs)| == 3 * |hs|
    decreases |hs|
  {
    if hs == {} {
      assert DescsOf(v, hs) == {};
    } else {
      var h :| h in hs;
      ThreeEach(v, hs - {h});
      OneTriple(v, hs, h);
      ThreeMore(DescsOf(v, hs - {h}), h, v.reqs[h].d1, v.reqs[h].d2);
    }
  }

  lemma OneTriple(v: View, hs: set<nat>, h: nat)
    requires OwnersOk(v) && h in hs && h in v.reqs
    ensures OwnsOk(v, h)
    ensures var r, rest := v.reqs[h], DescsOf(v, hs - {h});
      DescsOf(v, hs) == rest + {h, r.d1, r.d2} && h !in rest && r.d1 !in rest && r.d2 !in rest
  {
    assert OwnsOk(v, h);
    forall i | 0 <= i < NUM && v.owner[i] == h ensures i in {h, v.reqs[h].d1, v.reqs[h].d2} { assert OwnerOk(v, i); }
  }

  lemma ThreeMore(s: set<nat>, a: nat, b: nat, c: nat)
    requires a !in s && b !in s && c !in s && a != b && a != c && b != c
    ensures |s + {a, b, c}| == |s| + 3
  {
    assert s + {a, b, c} == s + {a} + {b} + {c};
  }

  function Below(n: nat): (s: set<nat>)
    ensures |s| == n && forall i :: i in s <==> 0 <= i < n
  {
    if n == 0 then {} else Below(n - 1) + {n - 1}
  }

  function Elements(xs: seq<nat>): (s: set<nat>)
    ensures forall x :: x in s <==> x in xs
  {
    if xs == [] then {} else
      assert xs == xs[..|xs| - 1] + [xs[|xs| - 1]];
      Elements(xs[..|xs| - 1]) + {xs[|xs| - 1]}
  }

  /** Free descriptors and those of the requests in flight, three each, are all there are. */
  lemma DescriptorsConserved(v: View)
    requires OwnersOk(v)
    ensures |FreeSet(v)| + 3 * |v.reqs| == NUM
  {
    ThreeEach(v, v.reqs.Keys);
    FreeOrOwned(v);
    assert |v.reqs.Keys| == |v.reqs|;
  }

  lemma FreeOrOwned(v: View)
    requires OwnersOk(v)
    ensures |FreeSet(v)| + |DescsOf(v, v.reqs.Keys)| == NUM
  {
    forall i | 0 <= i < NUM ensures v.free[i] <==> !(v.owner[i] >= 0 && v.owner[i] in v.reqs.Keys) {
      assert OwnerOk(v, i);
    }
    SplitRange(NUM, FreeSet(v), DescsOf(v, v.reqs.Keys));
  }

  lemma SplitRange(n: nat, a: set<nat>, b: set<nat>)
    requires a !! b && forall i :: i in a || i in b <==> 0 <= i < n
    ensures |a| + |b| == n
  {
    assert Below(n) == a + b;
  }

  /** Different heads of requests in flight: at most 21. */
  lemma FewEntries(v: View, entries: seq<nat>, from: nat, p: Phase)
    requires OwnersOk(v) && RingOk(v, entries, from, p)
    ensures |entries| - from <= |v.reqs| <= 21
  {
    DescriptorsConserved(v);
    ListSize(entries[from..], InPhase(v, p));
    Smaller(InPhase(v, p), v.reqs.Keys);
  }

  lemma ListSize(xs: seq<nat>, s: set<nat>)
    requires Lists(xs, s)
    ensures |xs| == |s|
  {
    Distinct(xs);
    assert Elements(xs) == s;
  }

  lemma ListAppend(xs: seq<nat>, s: set<nat>, h: nat)
    requires Lists(xs, s) && h !in s
    ensures Lists(xs + [h], s + {h})
  {
  }

  lemma ListTail(xs: seq<nat>, s: set<nat>)
    requires Lists(xs, s) && xs != []
    ensures Lists(xs[1..], s - {xs[0]}) && xs[0] in s
  {
    assert xs == [xs[0]] + xs[1..];
  }

  lemma {:induction false} Distinct(xs: seq<nat>)
    requires forall j, k :: 0 <= j < k < |xs| ==> xs[j] != xs[k]
    ensures |Elements(xs)| == |xs|
  {
    if xs != [] {
      Distinct(xs[..|xs| - 1]);
      assert xs[|xs| - 1] !in xs[..|xs| - 1];
    }
  }

  /** Neither ring overwrites an entry not yet consumed, and comparing 16-bit indices tells whether there
      is one. */
  lemma RingsHold(v: View, entries: seq<nat>, from: nat, p: Phase, ring: seq<nat>, h: nat)
    requires OwnersOk(v) && RingOk(v, entries, from, p) && |ring| == NUM && Held(ring, entries, from)
    ensures |v.reqs| < NUM ==> Held(ring[|entries| % NUM := h], entries + [h], from)
    ensures from % WRAP == |entries| % WRAP <==> from == |entries|
  {
    FewEntries(v, entries, from, p);
    SmallGap(from, |entries|);
    var ring' := ring[|entries| % NUM := h];
    forall k | from <= k < |entries| ensures ring'[k % NUM] == entries[k] { NoWrap(k, |entries|); }
  }

  lemma NoWrap(j: nat, k: nat)
    requires j < k < j + NUM
    ensures j % NUM != k % NUM
  {
  }

  lemma SmallGap(j: nat, k: nat)
    requires j <= k <= j + 21
    ensures j % WRAP == k % WRAP <==> j == k
  {
  }

  /** The position in the ring is the same for the 16-bit index and for the count it stands for. */
  lemma IndexInRing(n: nat)
    ensures n % WRAP % NUM == n % NUM && (n % WRAP + 1) % WRAP == (n + 1) % WRAP
  {
  }

  // ---------------------------------------------------------------------------------------
  // Every step keeps the invariant

  lemma SubmitOwns(v: View, i0: nat, i1: nat, i2: nat, b: nat, write: bool, blockno: nat, h: nat)
    requires CanSubmit(v, i0, i1, i2, b) && h in v.reqs
    ensures {h, v.reqs[h].d1, v.reqs[h].d2} !! {i0, i1, i2}
    ensures OwnsOk(Submit(v, i0, i1, i2, b, write, blockno), h)
  {
    hide ChainsOk; hide FlagsOk; hide HeadsOk; hide CompsOk; hide EmptyOk;
    assert OwnerOk(v, i0) && OwnerOk(v, i1) && OwnerOk(v, i2) && OwnsOk(v, h);
  }

  lemma SubmitOwner(v: View, i0: nat, i1: nat, i2: nat, b: nat, write: bool, blockno: nat, i: nat)
    requires CanSubmit(v, i0, i1, i2, b) && i < NUM
    ensures OwnerOk(Submit(v, i0, i1, i2, b, write, blockno), i)
  {
    hide ChainsOk; hide FlagsOk; hide HeadsOk; hide CompsOk; hide EmptyOk;
    assert OwnerOk(v, i) && OwnerOk(v, i0);
  }

  lemma SubmitOwners(v: View, i0: nat, i1: nat, i2: nat, b: nat, write: bool, blockno: nat)
    requires CanSubmit(v, i0, i1, i2, b)
    ensures OwnersOk(Submit(v, i0, i1, i2, b, write, blockno))
    ensures forall h :: h in v.reqs ==> {h, v.reqs[h].d1, v.reqs[h].d2} !! {i0, i1, i2}
  {
    hide ChainsOk; hide FlagsOk; hide HeadsOk; hide CompsOk; hide EmptyOk; hide OwnerOk;
    var w := Submit(v, i0, i1, i2, b, write, blockno);
    forall h | h in v.reqs
      ensures {h, v.reqs[h].d1, v.reqs[h].d2} !! {i0, i1, i2} && OwnsOk(w, h)
    {
      SubmitOwns(v, i0, i1, i2, b, write, blockno, h);
    }
    forall i | 0 <= i < NUM ensures OwnerOk(w, i) { SubmitOwner(v, i0, i1, i2, b, write, blockno, i); }
  }

  lemma SubmitInv(v: View, i0: nat, i1: nat, i2: nat, b: nat, write: bool, blockno: nat)
    requires CanSubmit(v, i0, i1, i2, b)
    ensures Inv(Submit(v, i0, i1, i2, b, write, blockno))
  {
    hide ChainsOk; hide FlagsOk; hide HeadsOk; hide CompsOk;
    SubmitOwners(v, i0, i1, i2, b, write, blockno);
    SubmitChains(v, i0, i1, i2, b, write, blockno);
    assert EmptyOk(Submit(v, i0, i1, i2, b, write, blockno));
    SubmitRings(v, i0, i1, i2, b, write, blockno);
  }

  lemma OwnsAt(v: View, h: nat)
    requires OwnersOk(v) && h in v.reqs
    ensures SizesOk(v) && OwnsOk(v, h)
  {
  }

  /** The chain of another request is not touched. */
  lemma OldChain(v: View, i0: nat, i1: nat, i2: nat, b: nat, write: bool, blockno: nat, h: nat)
    requires SizesOk(v) && i0 < NUM && i1 < NUM && i2 < NUM && h in v.reqs && h != i0 && v.reqs[h].b != b
    requires OwnsOk(v, h) && ChainOk(v, h) && FlagOk(v, h) && {h, v.reqs[h].d1, v.reqs[h].d2} !! {i0, i1, i2}
    ensures var w := Submit(v, i0, i1, i2, b, write, blockno);
      ChainOk(w, h) && FlagOk(w, h)
  {
    assert h in {h, v.reqs[h].d1, v.reqs[h].d2} && v.reqs[h].d1 in {h, v.reqs[h].d1, v.reqs[h].d2} &&
      v.reqs[h].d2 in {h, v.reqs[h].d1, v.reqs[h].d2};
  }

  lemma SubmitChains(v: View, i0: nat, i1: nat, i2: nat, b: nat, write: bool, blockno: nat)
    requires CanSubmit(v, i0, i1, i2, b)
    ensures var w := Submit(v, i0, i1, i2, b, write, blockno);
      OwnersOk(w) && ChainsOk(w) && FlagsOk(w)
  {
    hide HeadsOk; hide CompsOk; hide OwnersOk; hide EmptyOk; hide Sector;
    Sizes(v);
    var w := Submit(v, i0, i1, i2, b, write, blockno);
    SubmitOwners(v, i0, i1, i2, b, write, blockno);
    forall h | h in w.reqs ensures OwnsOk(w, h) && ChainOk(w, h) && FlagOk(w, h) {
      OwnsAt(w, h);
      if h != i0 {
        OwnsAt(v, h);
        OldChain(v, i0, i1, i2, b, write, blockno, h);
      }
    }
  }

  lemma SubmitRings(v: View, i0: nat, i1: nat, i2: nat, b: nat, write: bool, blockno: nat)
    requires CanSubmit(v, i0, i1, i2, b)
    ensures var w := Submit(v, i0, i1, i2, b, write, blockno);
      OwnersOk(w) && HeadsOk(w) && CompsOk(w)
  {
    hide Lists; hide Held; hide ChainsOk; hide FlagsOk; hide OwnersOk; hide EmptyOk;
    Sizes(v);
    var w := Submit(v, i0, i1, i2, b, write, blockno);
    SubmitOwners(v, i0, i1, i2, b, write, blockno);
    NotAHead(v, i0);
    FewEntries(v, v.heads, v.taken, Queued);
    RingsHold(v, v.heads, v.taken, Queued, v.avail, i0);
    assert w.heads[v.taken..] == v.heads[v.taken..] + [i0];
    NewRequest(v, i0, w);
    ListAppend(v.heads[v.taken..], InPhase(v, Queued), i0);
  }

  lemma NewRequest(v: View, i0: nat, w: View)
    requires i0 !in v.reqs && i0 in w.reqs && w.reqs[i0].phase == Queued && w.reqs == v.reqs[i0 := w.reqs[i0]]
    ensures InPhase(w, Queued) == InPhase(v, Queued) + {i0} && i0 !in InPhase(v, Queued) &&
      InPhase(w, Done) == InPhase(v, Done)
  {
  }

  lemma NotAHead(v: View, i: nat)
    requires OwnersOk(v) && i < NUM && v.free[i]
    ensures i !in v.reqs
  {
    assert OwnerOk(v, i);
    assert i in v.reqs ==> OwnsOk(v, i);
  }

  /** A request moves on to another phase: its descriptors stay its own. */
  lemma PhaseOwners(v: View, h: nat, p: Phase, w: View)
    requires OwnersOk(v) && h in v.reqs && SizesOk(w) && w.owner == v.owner && w.free == v.free
    requires w.reqs == v.reqs[h := v.reqs[h].(phase := p)]
    ensures OwnersOk(w) && OwnsOk(v, h) && (EmptyOk(v) && w.desc == v.desc ==> EmptyOk(w))
  {
    forall g | g in w.reqs ensures OwnsOk(w, g) { assert OwnsOk(v, g); }
    forall i | 0 <= i < NUM ensures OwnerOk(w, i) { assert OwnerOk(v, i); }
    assert OwnsOk(v, h);
  }

  /** Its descriptors keep saying what was asked for, if its status and its buffer's flag follow. */
  lemma PhaseChains(v: View, h: nat, p: Phase, w: View)
    requires Inv(v) && h in v.reqs && OwnersOk(w) && h < NUM
    requires w.reqs == v.reqs[h := v.reqs[h].(phase := p)] && w.desc == v.desc && w.ops == v.ops && w.info == v.info
    requires w.status == v.status[h := w.status[h]] && w.status[h] == if p.Queued? || p.Working? then 0xff else 0
    requires w.owned == v.owned[v.reqs[h].b := p != Seen]
    ensures ChainsOk(w) && FlagsOk(w)
  {
    hide HeadsOk; hide CompsOk; hide OwnersOk; hide EmptyOk;
    Sizes(w);
    Sizes(v);
    hide OwnsOk; hide ChainOk; hide FlagOk;
    forall g | g in w.reqs ensures OwnsOk(w, g) && ChainOk(w, g) && FlagOk(w, g) {
      OwnsAt(w, g);
      StatusOfReq(v, g);
      PhaseChain(v, h, p, w, g);
    }
  }

  lemma PhaseChain(v: View, h: nat, p: Phase, w: View, g: nat)
    requires SizesOk(v) && SizesOk(w) && h in v.reqs && h < NUM && g in v.reqs
    requires w.reqs == v.reqs[h := v.reqs[h].(phase := p)] && w.desc == v.desc && w.ops == v.ops && w.info == v.info
    requires OwnsOk(w, g) && OwnsOk(v, g) && ChainOk(v, g) && FlagOk(v, g) && (v.reqs[g].b == v.reqs[h].b ==> g == h)
    requires w.status == v.status[h := w.status[h]] && w.status[h] == if p.Queued? || p.Working? then 0xff else 0
    requires w.owned == v.owned[v.reqs[h].b := p != Seen]
    ensures ChainOk(w, g) && FlagOk(w, g)
  {
  }

  /** The ring of phase `p` when a request moves from phase `q` to phase `r`. */
  lemma PhaseRing(v: View, h: nat, r: Phase, w: View)
    requires h in v.reqs && w.reqs == v.reqs[h := v.reqs[h].(phase := r)] && v.reqs[h].phase != r
    ensures InPhase(w, r) == InPhase(v, r) + {h} && h !in InPhase(v, r)
    ensures InPhase(w, v.reqs[h].phase) == InPhase(v, v.reqs[h].phase) - {h}
    ensures forall p :: p != r && p != v.reqs[h].phase ==> InPhase(w, p) == InPhase(v, p)
  {
  }

  lemma NextInRing(v: View, entries: seq<nat>, from: nat, p: Phase)
    requires RingOk(v, entries, from, p) && from < |entries|
    ensures entries[from] in v.reqs && v.reqs[entries[from]].phase == p
    ensures Lists(entries[from + 1..], InPhase(v, p) - {entries[from]})
  {
    ListTail(entries[from..], InPhase(v, p));
    assert entries[from..][1..] == entries[from + 1..];
  }

  lemma TakeInv(v: View)
    requires Inv(v) && v.taken < |v.heads|
    ensures v.heads[v.taken] in v.reqs && v.reqs[v.heads[v.taken]].phase == Queued && Inv(Take(v))
  {
    hide Lists; hide ChainsOk; hide FlagsOk; hide EmptyOk; hide OwnersOk;
    NextInRing(v, v.heads, v.taken, Queued);
    var h, w := v.heads[v.taken], Take(v);
    Sizes(v);
    PhaseOwners(v, h, Working, w);
    StatusOfReq(v, h);
    PhaseChains(v, h, Working, w);
    PhaseRing(v, h, Working, w);
  }

  lemma Sizes(v: View)
    requires OwnersOk(v)
    ensures SizesOk(v)
  {
  }

  lemma StatusOfReq(v: View, h: nat)
    requires OwnersOk(v) && ChainsOk(v) && FlagsOk(v) && h in v.reqs
    ensures SizesOk(v) && OwnsOk(v, h) && ChainOk(v, h) && FlagOk(v, h)
    ensures v.status == v.status[h := v.status[h]] && v.owned == v.owned[v.reqs[h].b := v.owned[v.reqs[h].b]]
  {
    assert OwnsOk(v, h) && ChainOk(v, h) && FlagOk(v, h);
  }

  lemma CompleteInv(v: View, h: nat)
    requires Inv(v) && h in v.reqs && v.reqs[h].phase == Working
    ensures h < NUM && SizesOk(v) && Inv(Complete(v, h))
  {
    hide Lists; hide Held; hide ChainsOk; hide FlagsOk; hide EmptyOk; hide OwnersOk;
    StatusOfReq(v, h);
    var w := Complete(v, h);
    PhaseOwners(v, h, Done, w);
    PhaseChains(v, h, Done, w);
    PhaseRing(v, h, Done, w);
    FewEntries(v, v.comps, v.seen, Done);
    RingsHold(v, v.comps, v.seen, Done, v.used, h);
    ListAppend(v.comps[v.seen..], InPhase(v, Done), h);
    assert w.comps[v.seen..] == v.comps[v.seen..] + [h];
  }

  lemma ObserveInv(v: View)
    requires Inv(v) && v.seen < |v.comps|
    ensures v.comps[v.seen] in v.reqs && v.reqs[v.comps[v.seen]].phase == Done && Inv(Observe(v))
  {
    hide Lists; hide ChainsOk; hide FlagsOk; hide EmptyOk; hide OwnersOk;
    NextInRing(v, v.comps, v.seen, Done);
    var h, w := v.comps[v.seen], Observe(v);
    StatusOfReq(v, h);
    PhaseOwners(v, h, Seen, w);
    PhaseChains(v, h, Seen, w);
    PhaseRing(v, h, Seen, w);
  }

  lemma RetireInv(v: View, h: nat)
    requires Inv(v) && h in v.reqs && v.reqs[h].phase == Seen
    ensures SizesOk(v) && OwnsOk(v, h) && Inv(Retire(v, h))
  {
    hide Lists; hide Held; hide OwnersOk; hide ChainsOk; hide FlagsOk; hide EmptyOk;
    StatusOfReq(v, h);
    RetireOwners(v, h);
    RetireChains(v, h);
    RetirePhases(v, h);
  }

  lemma RetirePhases(v: View, h: nat)
    requires SizesOk(v) && h in v.reqs && OwnsOk(v, h) && v.reqs[h].phase == Seen
    ensures InPhase(Retire(v, h), Queued) == InPhase(v, Queued) && InPhase(Retire(v, h), Done) == InPhase(v, Done)
  {
  }

  lemma RetireChains(v: View, h: nat)
    requires OwnersOk(v) && ChainsOk(v) && FlagsOk(v) && h in v.reqs && SizesOk(v) && OwnsOk(v, h)
    requires OwnersOk(Retire(v, h))
    ensures ChainsOk(Retire(v, h)) && FlagsOk(Retire(v, h))
  {
    hide OwnersOk; hide Sector;
    var w := Retire(v, h);
    forall g | g in w.reqs ensures OwnsOk(w, g) && ChainOk(w, g) && FlagOk(w, g) {
      assert OwnsOk(v, g) && ChainOk(v, g) && FlagOk(v, g);
    }
  }

  lemma RetireOwners(v: View, h: nat)
    requires OwnersOk(v) && EmptyOk(v) && h in v.reqs && OwnsOk(v, h)
    ensures OwnersOk(Retire(v, h)) && EmptyOk(Retire(v, h))
  {
    var w := Retire(v, h);
    forall g | g in w.reqs ensures OwnsOk(w, g) { assert OwnsOk(v, g); }
    forall i | 0 <= i < NUM ensures OwnerOk(w, i) { assert OwnerOk(v, i); }
  }

  /** When fewer than three descriptors are free, 21 requests are in flight. */
  lemma FullMeans21(v: View)
    requires OwnersOk(v) && |FreeSet(v)| < 3
    ensures |v.reqs| == 21
  {
    DescriptorsConserved(v);
  }

  /** What the device finds when it follows the chain of request `h` is what was submitted. */
  lemma ChainSays(v: View, h: nat)
    requires Inv(v) && h in v.reqs
    ensures h < NUM && SizesOk(v)
    ensures var r := v.reqs[h];
      && r.d1 < NUM && r.d2 < NUM
      && v.desc[h].addr == Header(h) && v.desc[h].flags % 2 == 1 && v.desc[h].next == r.d1
      && v.desc[r.d1].addr == Data(r.b) && v.desc[r.d1].flags % 2 == 1 && v.desc[r.d1].next == r.d2
      && (v.desc[r.d1].flags / 2 % 2 == 1 <==> !r.write)
      && v.desc[r.d2].addr == StatusOf(h) && v.desc[r.d2].flags % 2 == 0
      && v.desc[h].len == 16 && v.desc[r.d1].len == 1024 && v.desc[r.d2].len == 1
      && v.desc[h].flags / 2 % 2 == 0 && v.desc[r.d2].flags / 2 % 2 == 1
      && v.ops[h].kind == (if r.write then 1 else 0) && v.info[h] == r.b
      && (r.blockno < 0x8000_0000 ==> v.ops[h].sector * 512 == r.blockno * BSIZE)
      && h != r.d1 && h != r.d2 && r.d1 != r.d2 && !v.free[h] && !v.free[r.d1] && !v.free[r.d2]
      && (r.phase == Done || r.phase == Seen ==> v.status[h] == 0)
  {
    BytesOfBlock(v.reqs[h].blockno);
    hide Sector;
    assert OwnsOk(v, h) && ChainOk(v, h);
    assert OwnerOk(v, h) && OwnerOk(v, v.reqs[h].d1) && OwnerOk(v, v.reqs[h].d2);
  }

  /** No sector belongs to requests for different blocks. */
  lemma BlocksApart(v: View, h: nat, g: nat, k: nat)
    requires Inv(v) && h in v.reqs && g in v.reqs && v.reqs[h].blockno != v.reqs[g].blockno
    requires v.reqs[h].blockno < 0x8000_0000 && v.reqs[g].blockno < 0x8000_0000
    ensures h < NUM && g < NUM && |v.ops| == NUM
    ensures v.ops[h].sector <= k && k * 512 < v.ops[h].sector * 512 + BSIZE ==>
      k < v.ops[g].sector || k * 512 >= v.ops[g].sector * 512 + BSIZE
  {
    hide Inv;
    ChainSays(v, h);
    ChainSays(v, g);
  }
}
