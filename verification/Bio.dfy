/** kernel/bio.c over its doubly linked list.  Buffers are numbered as in bcache.buf; number `n` stands
    for bcache.head. */
module Bio {
  import opened BioCache

  /** The list as a ring: the head, then the buffers in order. */
  function Ring(order: seq<nat>, n: nat): seq<nat>
  {
    [n] + order
  }

  function After(ring: seq<nat>, i: nat): nat
    requires i < |ring|
  {
    if i + 1 < |ring| then ring[i + 1] else ring[0]
  }

  /** `next` leads round the ring, and `prev` back. */
  ghost predicate Linked(nx: seq<nat>, pv: seq<nat>, ring: seq<nat>)
  {
    && |nx| == |pv| && ring != []
    && (forall i :: 0 <= i < |ring| ==> ring[i] < |nx|)
    && (forall i, j :: 0 <= i < j < |ring| ==> ring[i] != ring[j])
    && (forall i :: 0 <= i < |ring| ==> LinkOk(nx, pv, ring, i))
  }

  predicate LinkOk(nx: seq<nat>, pv: seq<nat>, ring: seq<nat>, i: nat)
    requires i < |ring|
  {
    && ring[i] < |nx| && nx[ring[i]] == After(ring, i)
    && After(ring, i) < |pv| && pv[After(ring, i)] == ring[i]
  }

  lemma LinkedAt(nx: seq<nat>, pv: seq<nat>, ring: seq<nat>, i: nat)
    requires Linked(nx, pv, ring) && i < |ring|
    ensures ring[i] < |nx| && nx[ring[i]] == After(ring, i) && After(ring, i) < |pv| && pv[After(ring, i)] == ring[i]
    ensures pv[ring[i]] == if i == 0 then ring[|ring| - 1] else ring[i - 1]
    ensures pv[ring[i]] < |nx|
  {
    var j := if i == 0 then |ring| - 1 else i - 1;
    assert LinkOk(nx, pv, ring, i) && LinkOk(nx, pv, ring, j);
    assert After(ring, j) == ring[i];
  }

  lemma Distinct(ring: seq<nat>, i: nat, j: nat)
    requires i < |ring| && j < |ring| && forall x, y :: 0 <= x < y < |ring| ==> ring[x] != ring[y]
    ensures ring[i] == ring[j] <==> i == j
    ensures After(ring, i) == After(ring, j) <==> i == j
  {
  }

  /** The buffers as they stand in the arrays. */
  function Bufs(dev: seq<nat>, blockno: seq<nat>, refcnt: seq<nat>, valid: seq<bool>, stamps: seq<nat>): (r: seq<Buf>)
    requires |dev| == |blockno| == |refcnt| == |valid| == |stamps|
    ensures |r| == |dev| && forall i :: 0 <= i < |dev| ==>
      r[i] == Buf(dev[i], blockno[i], refcnt[i], valid[i], stamps[i])
  {
    seq(|dev|, i requires 0 <= i < |dev| => Buf(dev[i], blockno[i], refcnt[i], valid[i], stamps[i]))
  }

  /** Unlinking entry `k`, which is not the head. */
  lemma UnlinkRing(nx: seq<nat>, pv: seq<nat>, ring: seq<nat>, k: nat)
    requires Linked(nx, pv, ring) && 0 < k < |ring|
    ensures ring[k] < |nx| && nx[ring[k]] < |nx| && pv[ring[k]] < |nx|
    ensures Linked(nx[pv[ring[k]] := nx[ring[k]]], pv[nx[ring[k]] := pv[ring[k]]], ring[..k] + ring[k + 1..])
  {
    var b, rest := ring[k], ring[..k] + ring[k + 1..];
    LinkedAt(nx, pv, ring, k);
    var nx', pv' := nx[pv[b] := nx[b]], pv[nx[b] := pv[b]];
    forall i | 0 <= i < |rest| ensures rest[i] == ring[if i < k then i else i + 1] {}
    forall i | 0 <= i < |rest| ensures LinkOk(nx', pv', rest, i) {
      var j := if i < k then i else i + 1;
      assert LinkOk(nx, pv, ring, j) && LinkOk(nx, pv, ring, k) && LinkOk(nx, pv, ring, k - 1);
      Distinct(ring, j, k - 1);
    }
  }

  /** Linking `b` in behind the head. */
  lemma FrontRing(nx: seq<nat>, pv: seq<nat>, ring: seq<nat>, b: nat)
    requires Linked(nx, pv, ring) && b < |nx| && b !in ring
    ensures nx[ring[0]] < |nx| && ring[0] < |nx|
    ensures var f, h := nx[ring[0]], ring[0];
      Linked(nx[b := f][h := b], pv[b := h][f := b], [h, b] + ring[1..])
  {
    LinkedAt(nx, pv, ring, 0);
    var f, h, r := nx[ring[0]], ring[0], [ring[0], b] + ring[1..];
    var nx', pv' := nx[b := f][h := b], pv[b := h][f := b];
    assert forall i :: 0 <= i < |ring| ==> ring[i] != b;
    forall i | 0 <= i < |r| ensures r[i] == if i == 0 then h else if i == 1 then b else ring[i - 1] {}
    forall i | 0 <= i < |r| ensures LinkOk(nx', pv', r, i) {
      var j := if i > 1 then i - 1 else 0;
      assert LinkOk(nx, pv, ring, j) && LinkOk(nx, pv, ring, 0);
      Distinct(ring, j, 0);
    }
  }

  class BCache {
    const n: nat
    const next: array<nat>
    const prev: array<nat>
    const dev: array<nat>
    const blockno: array<nat>
    const refcnt: array<nat>
    const valid: array<bool>
    ghost var order: seq<nat>
    ghost var stamps: seq<nat>
    ghost var clock: nat

    ghost predicate Shaped()
      reads this
    {
      && next.Length == prev.Length == n + 1 &&
        dev.Length == blockno.Length == refcnt.Length == valid.Length == n == |stamps|
      && next != prev && next != dev && next != blockno && next != refcnt && prev != dev && prev != blockno &&
        prev != refcnt
      && dev != blockno && dev != refcnt && blockno != refcnt
    }

    ghost function V(): (c: Cache)
      requires Shaped()
      reads this, dev, blockno, refcnt, valid
    {
      Cache(Bufs(dev[..], blockno[..], refcnt[..], valid[..], stamps), order, clock)
    }

    ghost predicate Valid()
      reads this, next, prev, dev, blockno, refcnt, valid
    {
      Shaped() && CacheOk(V()) && Linked(next[..], prev[..], Ring(order, n))
    }

    /** Static storage, all zero. */
    constructor (n: nat)
      ensures Shaped() && this.n == n && order == [] && clock == n && stamps == seq(n, i => i)
      ensures (forall i :: 0 <= i < n ==> dev[i] == 0 && blockno[i] == 0 && refcnt[i] == 0 && !valid[i])
    {
      this.n := n;
      next, prev := new nat[n + 1](_ => 0), new nat[n + 1](_ => 0);
      dev, blockno, refcnt := new nat[n](_ => 0), new nat[n](_ => 0), new nat[n](_ => 0);
      valid := new bool[n](_ => false);
      order, clock := [], n;
      stamps := seq(n, i => i);
    }

    /** binit: every buffer is put at the front in turn. */
    method Init()
      requires Shaped() && order == [] && clock == n && stamps == seq(n, i => i)
      requires (forall i :: 0 <= i < n ==> dev[i] == 0 && blockno[i] == 0 && refcnt[i] == 0 && !valid[i])
      modifies this`order, next, prev
      ensures Valid() && V().bufs == old(V()).bufs
    {
      prev[n] := n;
      next[n] := n;
      for b := 0 to n
        invariant Shaped() && Linked(next[..], prev[..], Ring(order, n))
        invariant |order| == b && forall i :: 0 <= i < b ==> order[i] == b - 1 - i
      {
        assert b !in Ring(order, n);
        ToFront(b);
      }
      StartOk(V());
    }

    /** The four stores that put a buffer behind the head. */
    method ToFront(b: nat)
      requires Shaped() && Linked(next[..], prev[..], Ring(order, n)) && b < n && b !in Ring(order, n)
      modifies this`order, next, prev
      ensures Shaped() && order == [b] + old(order) && Linked(next[..], prev[..], Ring(order, n))
    {
      FrontRing(next[..], prev[..], Ring(order, n), b);
      ghost var nx: seq<nat>, pv: seq<nat> := next[..], prev[..];
      var first := next[n];
      next[b] := first;
      prev[b] := n;
      prev[next[n]] := b;
      next[n] := b;
      assert next[..] == nx[b := first][n := b] && prev[..] == pv[b := n][first := b];
      order := [b] + order;
      assert Ring(order, n) == [n, b] + Ring(old(order), n)[1..];
    }

    /** bget up to the P on the buffer's semaphore; `b == -1` is the panic. */
    method BGet(wantDev: nat, wantBlock: nat) returns (b: int)
      requires Valid() && wantDev != 0
      modifies dev, blockno, refcnt, valid
      ensures Valid() && Found(V(), b) == Get(old(V()), wantDev, wantBlock)
    {
      hide CacheOk; hide Linked; hide Recycle; hide UnusedBefore;
      ghost var c := V();
      GetKeeps(c, wantDev, wantBlock);
      InRange(c);
      ghost var i := 0;
      b := Next(n, 0);
      while b != n
        invariant i <= |order| && b == (if i < |order| then order[i] else n) && V() == c
        invariant FindFrom(c, wantDev, wantBlock, 0) == FindFrom(c, wantDev, wantBlock, i)
        decreases |order| - i
      {
        assert c.bufs[b] == V().bufs[b];
        if dev[b] == wantDev && blockno[b] == wantBlock {
          Ref(b);
          return;
        }
        i := i + 1;
        b := Next(b, i);
      }
      b := Recycled(wantDev, wantBlock);
    }

    /** One more user. */
    method Ref(b: nat)
      requires Shaped() && b < n
      modifies refcnt
      ensures Shaped() && V() == Inc(old(V()), b)
    {
      refcnt[b] := refcnt[b] + 1;
    }

    /** The entry after `b` in the list. */
    method Next(b: nat, ghost i: nat) returns (s: nat)
      requires Valid() && i <= |order| && b == Ring(order, n)[i]
      ensures s == if i < |order| then order[i] else n
    {
      LinkedAt(next[..], prev[..], Ring(order, n), i);
      s := next[b];
    }

    /** The second loop of bget, from the least recently released buffer on. */
    method Recycled(wantDev: nat, wantBlock: nat) returns (b: int)
      requires Valid() && FindFrom(V(), wantDev, wantBlock, 0) == |order|
      requires CacheOk(Get(V(), wantDev, wantBlock).cache)
      modifies dev, blockno, refcnt, valid
      ensures Valid() && Found(V(), b) == Get(old(V()), wantDev, wantBlock)
    {
      hide CacheOk; hide Linked; hide Recycle;
      ghost var c := V();
      InRange(c);
      ghost var i := |order|;
      b := Previous(n, 0);
      while b != n
        invariant 0 <= i <= |order| && b == (if i > 0 then order[i - 1] else n) && V() == c
        invariant UnusedBefore(c, |order|) == UnusedBefore(c, i)
        decreases i
      {
        assert c.bufs[b] == V().bufs[b];
        if refcnt[b] == 0 {
          Reuse(b, wantDev, wantBlock);
          return;
        }
        b := Previous(b, i);
        i := i - 1;
      }
      b := -1;
    }

    /** The four stores that give a buffer to another block. */
    method Reuse(b: nat, wantDev: nat, wantBlock: nat)
      requires Shaped() && b < n
      modifies dev, blockno, refcnt, valid
      ensures Shaped() && V() == Recycle(old(V()), b, wantDev, wantBlock)
    {
      ghost var c := V();
      dev[b] := wantDev;
      blockno[b] := wantBlock;
      valid[b] := false;
      refcnt[b] := 1;
      assert V() == Recycle(c, b, wantDev, wantBlock);
    }

    /** The entry before `b` in the list. */
    method Previous(b: nat, ghost i: nat) returns (s: nat)
      requires Valid() && i <= |order| && b == Ring(order, n)[i]
      ensures s == if i == 0 then Ring(order, n)[|order|] else Ring(order, n)[i - 1]
    {
      LinkedAt(next[..], prev[..], Ring(order, n), i);
      s := prev[b];
    }

    /** brelse after the V on the buffer's semaphore. */
    method Unref(b: nat)
      requires Valid() && b < n && refcnt[b] > 0
      modifies this`order, this`stamps, this`clock, next, prev, refcnt
      ensures Valid() && old(V()).bufs[b].refcnt > 0 && V() == Put(old(V()), b)
      ensures refcnt[..] == old(refcnt[..])[b := old(refcnt[b]) - 1]
      ensures old(refcnt[b]) > 1 ==> order == old(order)
      ensures old(refcnt[b]) == 1 ==> ToFrontOf(old(order), b, order)
    {
      hide CacheOk; hide Linked; hide ToFrontOf;
      ghost var c := V();
      PutKeeps(c, b);
      Listed(c, b);
      refcnt[b] := refcnt[b] - 1;
      if refcnt[b] == 0 {
        ghost var k :| 0 <= k < |order| && order[k] == b;
        WithoutAt(order, b, k);
        MoveToFront(b, k);
        stamps, clock := stamps[b := clock], clock + 1;
        assert V() == Put(c, b);
      } else {
        assert V() == Put(c, b);
      }
    }

    /** The buffer goes from its place to the front of the list. */
    method MoveToFront(b: nat, ghost k: nat)
      requires Shaped() && Linked(next[..], prev[..], Ring(order, n)) && k < |order| && order[k] == b
      modifies this`order, next, prev
      ensures Shaped() && Linked(next[..], prev[..], Ring(order, n))
      ensures order == [b] + (old(order)[..k] + old(order)[k + 1..]) && ToFrontOf(old(order), b, order)
    {
      hide Linked;
      Unlink(b, k);
      ToFront(b);
      assert order == [b] + old(order)[..k] + old(order)[k + 1..];
    }

    /** The two stores that take a buffer out of the list. */
    method Unlink(b: nat, ghost k: nat)
      requires Shaped() && Linked(next[..], prev[..], Ring(order, n)) && k < |order| && order[k] == b
      modifies this`order, next, prev
      ensures Shaped() && order == old(order)[..k] + old(order)[k + 1..] && Linked(next[..], prev[..], Ring(order, n))
      ensures b < n && b !in Ring(order, n)
    {
      ghost var nx: seq<nat>, pv: seq<nat>, ring := next[..], prev[..], Ring(order, n);
      UnlinkRing(nx, pv, ring, k + 1);
      assert ring[k + 1] == b && ring[0] == n;
      prev[next[b]] := prev[b];
      next[prev[b]] := next[b];
      assert prev[..] == pv[nx[b] := pv[b]];
      assert next[..] == nx[pv[b] := nx[b]];
      order := order[..k] + order[k + 1..];
      assert Ring(order, n) == ring[..k + 1] + ring[k + 2..];
    }
  }

  /** `b` has gone to the front of the list, and the others have kept their order. */
  ghost predicate ToFrontOf(order: seq<nat>, b: nat, order': seq<nat>)
  {
    exists k :: 0 <= k < |order| && order[k] == b && order' == [b] + order[..k] + order[k + 1..]
  }

  lemma InRange(c: Cache)
    requires CacheOk(c)
    ensures forall j :: 0 <= j < |c.order| ==> c.order[j] < |c.bufs|
  {
  }

  lemma Listed(c: Cache, b: nat)
    requires CacheOk(c) && b < |c.bufs|
    ensures b in c.order && forall i, j :: 0 <= i < j < |c.order| ==> c.order[i] != c.order[j]
  {
  }

  /** The cache after binit. */
  lemma StartOk(c: Cache)
    requires |c.order| == |c.bufs| == c.clock && forall i :: 0 <= i < |c.order| ==> c.order[i] == |c.order| - 1 - i
    requires forall i :: 0 <= i < |c.bufs| ==> c.bufs[i] == Buf(0, 0, 0, false, i)
    ensures CacheOk(c)
  {
    forall b | 0 <= b < |c.bufs| ensures b in c.order { assert c.order[|c.order| - 1 - b] == b; }
  }
}
