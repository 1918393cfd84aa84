/** The buffer cache (kernel/bio.c) as a value: buffers, and their order from the most to the least
    recently released. */
module BioCache {

  /** `stamp` is the time of the buffer's last release to no references. */
  datatype Buf = Buf(dev: nat, blockno: nat, refcnt: nat, valid: bool, stamp: nat)

  /** `order` lists the buffers as the linked list does from head.next on. */
  datatype Cache = Cache(bufs: seq<Buf>, order: seq<nat>, clock: nat)

  ghost predicate Permutation(order: seq<nat>, n: nat)
  {
    && (forall i :: 0 <= i < |order| ==> order[i] < n)
    && (forall i, j :: 0 <= i < j < |order| ==> order[i] != order[j])
    && (forall b :: 0 <= b < n ==> b in order)
  }

  ghost predicate SortedByRelease(c: Cache)
    requires forall i :: 0 <= i < |c.order| ==> c.order[i] < |c.bufs|
  {
    && (forall i, j :: 0 <= i < j < |c.order| ==> c.bufs[c.order[i]].stamp > c.bufs[c.order[j]].stamp)
    && (forall b :: 0 <= b < |c.bufs| ==> c.bufs[b].stamp < c.clock)
  }

  predicate SameBlock(a: Buf, b: Buf)
  {
    a.dev != 0 && a.dev == b.dev && a.blockno == b.blockno
  }

  /** A block of a real device is in one buffer at most. */
  ghost predicate Unique(c: Cache)
  {
    forall a, b :: 0 <= a < |c.bufs| && 0 <= b < |c.bufs| && SameBlock(c.bufs[a], c.bufs[b]) ==> a == b
  }

  ghost predicate CacheOk(c: Cache)
  {
    Permutation(c.order, |c.bufs|) && SortedByRelease(c) && Unique(c)
  }

  predicate Matches(b: Buf, dev: nat, blockno: nat)
  {
    b.dev == dev && b.blockno == blockno
  }

  /** The first entry of the list, from `i` on, that holds the block; |order| if there is none. */
  function FindFrom(c: Cache, dev: nat, blockno: nat, i: nat): (k: nat)
    requires i <= |c.order| && forall j :: 0 <= j < |c.order| ==> c.order[j] < |c.bufs|
    ensures i <= k <= |c.order|
    ensures k < |c.order| ==> Matches(c.bufs[c.order[k]], dev, blockno)
    ensures forall j :: i <= j < k ==> !Matches(c.bufs[c.order[j]], dev, blockno)
    decreases |c.order| - i
  {
    if i == |c.order| || Matches(c.bufs[c.order[i]], dev, blockno) then i else FindFrom(c, dev, blockno, i + 1)
  }

  /** The last entry before `i` that nobody uses; -1 if there is none. */
  function UnusedBefore(c: Cache, i: nat): (k: int)
    requires i <= |c.order| && forall j :: 0 <= j < |c.order| ==> c.order[j] < |c.bufs|
    ensures -1 <= k < i
    ensures k >= 0 ==> c.bufs[c.order[k]].refcnt == 0
    ensures forall j :: k < j < i ==> c.bufs[c.order[j]].refcnt > 0
  {
    if i == 0 then -1 else if c.bufs[c.order[i - 1]].refcnt == 0 then i - 1 else UnusedBefore(c, i - 1)
  }

  function Inc(c: Cache, b: nat): Cache
    requires b < |c.bufs|
  {
    c.(bufs := c.bufs[b := c.bufs[b].(refcnt := c.bufs[b].refcnt + 1)])
  }

  function Recycle(c: Cache, b: nat, dev: nat, blockno: nat): Cache
    requires b < |c.bufs|
  {
    c.(bufs := c.bufs[b := Buf(dev, blockno, 1, false, c.bufs[b].stamp)])
  }

  datatype Found = Found(cache: Cache, b: int)

  /** The part of bget under the cache's lock: the cache afterwards and the buffer, or -1 for the panic. */
  function Get(c: Cache, dev: nat, blockno: nat): Found
    requires forall j :: 0 <= j < |c.order| ==> c.order[j] < |c.bufs|
  {
    var k := FindFrom(c, dev, blockno, 0);
    if k < |c.order| then Found(Inc(c, c.order[k]), c.order[k])
    else
      var u := UnusedBefore(c, |c.order|);
      if u >= 0 then Found(Recycle(c, c.order[u], dev, blockno), c.order[u]) else Found(c, -1)
  }

  function Without(order: seq<nat>, b: nat): (r: seq<nat>)
    ensures b !in order ==> r == order
  {
    if order == [] then [] else if order[0] == b then order[1..] else [order[0]] + Without(order[1..], b)
  }

  /** The part of brelse under the cache's lock. */
  function Put(c: Cache, b: nat): Cache
    requires b < |c.bufs| && c.bufs[b].refcnt > 0
  {
    var r := c.bufs[b].refcnt - 1;
    if r > 0 then c.(bufs := c.bufs[b := c.bufs[b].(refcnt := r)])
    else Cache(c.bufs[b := c.bufs[b].(refcnt := 0, stamp := c.clock)], [b] + Without(c.order, b), c.clock + 1)
  }

  // ---------------------------------------------------------------------------------------

  lemma {:induction false} WithoutAt(order: seq<nat>, b: nat, k: nat)
    requires k < |order| && order[k] == b && forall i, j :: 0 <= i < j < |order| ==> order[i] != order[j]
    ensures Without(order, b) == order[..k] + order[k + 1..]
  {
    if k > 0 {
      assert order[0] != order[k];
      WithoutAt(order[1..], b, k - 1);
      assert order[..k] == [order[0]] + order[1..][..k - 1];
    }
  }

  /** The buffer that a new block gets is the least recently released of those nobody uses. */
  lemma VictimIsLeastRecent(c: Cache, dev: nat, blockno: nat, x: nat)
    requires CacheOk(c) && x < |c.bufs| && c.bufs[x].refcnt == 0 && forall b :: 0 <= b < |c.bufs| ==>
      !Matches(c.bufs[b], dev, blockno)
    ensures var b := Get(c, dev, blockno).b;
      0 <= b < |c.bufs| && c.bufs[b].refcnt == 0 && c.bufs[b].stamp <= c.bufs[x].stamp
  {
    assert x in c.order;
    var i :| 0 <= i < |c.order| && c.order[i] == x;
    var u := UnusedBefore(c, |c.order|);
    assert i <= u;
  }

  /** A block that is cached is found, and no second buffer is used for it. */
  lemma CachedIsFound(c: Cache, dev: nat, blockno: nat, x: nat)
    requires CacheOk(c) && dev != 0 && x < |c.bufs| && Matches(c.bufs[x], dev, blockno)
    ensures Get(c, dev, blockno) == Found(Inc(c, x), x)
  {
    assert x in c.order;
    var i :| 0 <= i < |c.order| && c.order[i] == x;
    assert FindFrom(c, dev, blockno, 0) <= i;
  }

  lemma GetKeeps(c: Cache, dev: nat, blockno: nat)
    requires CacheOk(c) && dev != 0
    ensures CacheOk(Get(c, dev, blockno).cache)
    ensures var d, b := Get(c, dev, blockno).cache, Get(c, dev, blockno).b;
      && |d.bufs| == |c.bufs| && -1 <= b < |c.bufs| && (b == -1 ==> d == c)
      && (b >= 0 ==> Matches(d.bufs[b], dev, blockno) && d.bufs[b].refcnt == c.bufs[b].refcnt + 1)
      && (b >= 0 ==> (c.bufs[b].refcnt > 0 ==> d.bufs[b] == c.bufs[b].(refcnt := c.bufs[b].refcnt + 1)))
      && (b >= 0 ==> d.bufs[b].valid ==> d.bufs[b] == c.bufs[b].(refcnt := c.bufs[b].refcnt + 1))
      && (forall x :: 0 <= x < |c.bufs| && x != b ==> d.bufs[x] == c.bufs[x])
  {
    var d, k := Get(c, dev, blockno).cache, FindFrom(c, dev, blockno, 0);
    if k == |c.order| {
      forall x | 0 <= x < |c.bufs| ensures !Matches(c.bufs[x], dev, blockno) {
        assert x in c.order;
        var i :| 0 <= i < |c.order| && c.order[i] == x;
      }
    }
  }

  lemma PutKeeps(c: Cache, b: nat)
    requires CacheOk(c) && b < |c.bufs| && c.bufs[b].refcnt > 0
    ensures CacheOk(Put(c, b))
  {
    assert b in c.order;
    var k :| 0 <= k < |c.order| && c.order[k] == b;
    if c.bufs[b].refcnt == 1 {
      WithoutAt(c.order, b, k);
      PutOrder(c.order, |c.bufs|, b, k);
      PutSorted(c, b, k);
      hide Permutation; hide SortedByRelease;
      PutUnique(c, b);
    } else {
      PutUnique(c, b);
    }
  }

  lemma PutUnique(c: Cache, b: nat)
    requires Unique(c) && b < |c.bufs| && c.bufs[b].refcnt > 0
    ensures Unique(Put(c, b))
  {
  }

  /** Entry `i` of the list after `b`, from place `k`, has gone to the front. */
  lemma PutAt(order: seq<nat>, b: nat, k: nat, i: nat)
    requires k < |order| && order[k] == b && 0 < i < |order|
    ensures ([b] + (order[..k] + order[k + 1..]))[i] == if i <= k then order[i - 1] else order[i]
  {
  }

  lemma PutOrder(order: seq<nat>, n: nat, b: nat, k: nat)
    requires Permutation(order, n) && k < |order| && order[k] == b
    ensures Permutation([b] + (order[..k] + order[k + 1..]), n)
  {
    var r := [b] + (order[..k] + order[k + 1..]);
    forall i | 0 < i < |r| ensures r[i] == if i <= k then order[i - 1] else order[i] { PutAt(order, b, k, i); }
    forall x | 0 <= x < n ensures x in r {
      assert x in order;
      var i :| 0 <= i < |order| && order[i] == x;
      assert x == if i < k then r[i + 1] else if i == k then r[0] else r[i];
    }
  }

  lemma PutSorted(c: Cache, b: nat, k: nat)
    requires CacheOk(c) && k < |c.order| && c.order[k] == b && b < |c.bufs| && c.bufs[b].refcnt == 1
    requires Put(c, b).order == [b] + (c.order[..k] + c.order[k + 1..])
    requires forall i :: 0 <= i < |Put(c, b).order| ==> Put(c, b).order[i] < |c.bufs|
    ensures SortedByRelease(Put(c, b))
  {
    hide Unique; hide Without;
    var d := Put(c, b);
    var stamps := d.bufs;
    assert d.clock == c.clock + 1 && stamps[b].stamp == c.clock;
    assert forall x :: 0 <= x < |c.bufs| && x != b ==> stamps[x].stamp == c.bufs[x].stamp;
    forall i, j | 0 <= i < j < |d.order| ensures stamps[d.order[i]].stamp > stamps[d.order[j]].stamp {
      var y := if j <= k then j - 1 else j;
      PutAt(c.order, b, k, j);
      assert d.order[j] == c.order[y] && y != k;
      if i > 0 {
        var x := if i <= k then i - 1 else i;
        PutAt(c.order, b, k, i);
        assert d.order[i] == c.order[x] && x != k && x < y;
      }
    }
  }
}
