/** The steps by which pages and blocks change owners.  Each keeps the ownership invariant. */
module AllocSteps {
  import opened Common
  import opened AllocHeap

  /** How many leading elements are less than `v`: the place of `v` in an increasing list. */
  function Rank(xs: seq<nat>, v: nat): (r: nat)
    ensures r <= |xs|
    ensures forall i :: 0 <= i < r ==> xs[i] < v
    ensures r < |xs| ==> xs[r] >= v
  {
    if xs == [] || xs[0] >= v then 0 else 1 + Rank(xs[1..], v)
  }

  /** Putting `run` where its first element belongs. */
  function InsertRun(xs: seq<nat>, run: seq<nat>): seq<nat>
    requires run != []
  {
    var i := Rank(xs, run[0]);
    xs[..i] + run + xs[i..]
  }

  function RemoveRun(xs: seq<nat>, i: nat, n: nat): seq<nat>
    requires i + n <= |xs|
  {
    xs[..i] + xs[i + n..]
  }

  /** The numbers from `f` on, `n` of them. */
  function Range(f: nat, n: nat): (r: seq<nat>)
    ensures |r| == n && forall i :: 0 <= i < n ==> r[i] == f + i
  {
    seq(n, i requires 0 <= i < n => f + i)
  }

  /** Removing a run and inserting it again gives the list back. */
  lemma InsertUndoesRemove(xs: seq<nat>, i: nat, n: nat)
    requires Increasing(xs) && i + n <= |xs| && n > 0
    ensures InsertRun(RemoveRun(xs, i, n), xs[i..i + n]) == xs
  {
    var ys := RemoveRun(xs, i, n);
    var r := Rank(ys, xs[i]);
    assert r == i by {
      assert forall j :: 0 <= j < i ==> ys[j] == xs[j];
      assert i < |ys| ==> ys[i] == xs[i + n];
    }
  }

  lemma InsertIncreasing(xs: seq<nat>, run: seq<nat>)
    requires Increasing(xs) && Increasing(run) && run != []
    requires forall i :: 0 <= i < |xs| ==> xs[i] < run[0] || xs[i] > run[|run| - 1]
    ensures Increasing(InsertRun(xs, run))
  {
    var i, n, ys := Rank(xs, run[0]), |run|, InsertRun(xs, run);
    forall a, b | 0 <= a < b < |ys| ensures ys[a] < ys[b] {
      var x := if a < i then xs[a] else if a < i + n then run[a - i] else xs[a - n];
      var y := if b < i then xs[b] else if b < i + n then run[b - i] else xs[b - n];
      assert ys[a] == x && ys[b] == y;
      if i <= a < i + n <= b { assert xs[b - n] >= xs[i]; }
    }
  }

  lemma InsertMembers(xs: seq<nat>, run: seq<nat>)
    requires run != []
    ensures forall x :: x in InsertRun(xs, run) <==> x in xs || x in run
  {
    var i := Rank(xs, run[0]);
    assert xs == xs[..i] + xs[i..];
    assert forall x :: x in xs <==> x in xs[..i] || x in xs[i..];
  }

  lemma RemoveIncreasing(xs: seq<nat>, i: nat, n: nat)
    requires Increasing(xs) && i + n <= |xs|
    ensures Increasing(RemoveRun(xs, i, n))
    ensures forall x :: x in RemoveRun(xs, i, n) <==> x in xs && x !in xs[i..i + n]
  {
    var ys := RemoveRun(xs, i, n);
    assert forall k :: 0 <= k < |ys| ==> ys[k] == xs[if k < i then k else k + n];
    RemoveMembers(xs, i, n);
  }

  lemma RemoveMembers(xs: seq<nat>, i: nat, n: nat)
    requires Increasing(xs) && i + n <= |xs|
    ensures forall x :: x in RemoveRun(xs, i, n) <==> x in xs && x !in xs[i..i + n]
  {
    var ys := RemoveRun(xs, i, n);
    forall x | x in ys ensures x in xs && x !in xs[i..i + n] {
      var k :| 0 <= k < |ys| && ys[k] == x;
      assert x == xs[if k < i then k else k + n];
    }
    assert xs == xs[..i] + xs[i..i + n] + xs[i + n..];
    assert forall x :: x in xs ==> x in xs[..i] || x in xs[i..i + n] || x in xs[i + n..];
  }

  // ---------------------------------------------------------------------------------------
  // Pages that belong to nobody

  /** Pages fresh from the top of the heap. */
  function NewPages(h: Heap, n: nat): Heap
  {
    h.(owner := h.owner + seq(n, _ => Lost))
  }

  /** The pages cut into blocks are the same, and cut in the same way. */
  ghost predicate SameSmall(h: Heap, h': Heap)
  {
    && h'.base == h.base && h'.cls == h.cls && |h.owner| <= |h'.owner|
    && (forall k :: 0 <= k < |h'.owner| && h'.owner[k].Small? ==> k < |h.owner| && h.owner[k] == h'.owner[k])
    && (forall k :: 0 <= k < |h.owner| && h.owner[k].Small? ==> h'.owner[k] == h.owner[k])
  }

  lemma SmallKept(h: Heap, h': Heap, b: nat, c: nat)
    requires SameSmall(h, h')
    ensures InClass(h', b, c) <==> InClass(h, b, c)
  {
    hide Offset;
  }

  lemma ClassesKept(h: Heap, h': Heap)
    requires Ok(h) && SameSmall(h, h')
    ensures |h'.cls| == CLASSES && h'.base > 0
    ensures forall b, c :: b >= 0 && c >= 0 ==> (InClass(h', b, c) <==> InClass(h, b, c))
    ensures forall c :: 0 <= c < CLASSES ==> ClassOk(h', c)
  {
    forall b, c | b >= 0 && c >= 0 ensures InClass(h', b, c) <==> InClass(h, b, c) { SmallKept(h, h', b, c); }
    hide InClass; hide Increasing; hide PA;
    forall c | 0 <= c < CLASSES ensures ClassOk(h', c) { assert ClassOk(h, c); }
  }

  lemma OkFacts(h: Heap)
    requires Ok(h)
    ensures |h.cls| == CLASSES && FreeOk(h)
    ensures forall b, c :: 0 <= c < CLASSES && b >= 0 ==> BlockOk(h, b, c)
    ensures forall k :: 0 <= k < |h.owner| ==> OwnerOk(h, k)
    ensures forall b :: b in h.live ==> LiveBlock(h, b)
  {
  }

  lemma NewPagesLive(h: Heap, n: nat)
    ensures NewPages(h, n).live == h.live
  {
  }

  lemma NewPagesOk(h: Heap, n: nat)
    requires Ok(h)
    ensures Ok(NewPages(h, n))
  {
    hide InClass; hide ClassOk; hide Increasing;
    var h' := NewPages(h, n);
    ClassesKept(h, h');
    OkFacts(h);
    forall b, c | 0 <= c < CLASSES && b >= 0 ensures BlockOk(h', b, c) { assert BlockOk(h, b, c); }
    forall k | 0 <= k < |h'.owner| ensures OwnerOk(h', k) {
      if k < |h.owner| { assert OwnerOk(h, k); }
    }
    forall b | b in h'.live ensures LiveBlock(h', b) { assert LiveBlock(h, b); }
  }

  /** Entries `i` to `i + n - 1` of the free list leave it. */
  function TakeFree(h: Heap, i: nat, n: nat): Heap
    requires i + n <= |h.free|
  {
    h.(free := RemoveRun(h.free, i, n),
       owner := seq(|h.owner|, k requires 0 <= k < |h.owner| => if k in h.free[i..i + n] then Lost else h.owner[k]))
  }

  lemma TakeFreeOk(h: Heap, i: nat, n: nat)
    requires Ok(h) && i + n <= |h.free|
    ensures Ok(TakeFree(h, i, n))
    ensures forall j :: i <= j < i + n ==> h.free[j] < |h.owner| && TakeFree(h, i, n).owner[h.free[j]] == Lost
  {
    var h', run := TakeFree(h, i, n), h.free[i..i + n];
    RemoveIncreasing(h.free, i, n);
    forall j | i <= j < i + n ensures h.free[j] in run { assert run[j - i] == h.free[j]; }
    forall k | k in run ensures k < |h.owner| && h.owner[k] == Free {
      var j :| 0 <= j < |run| && run[j] == k;
      assert h.free[i + j] == k;
    }
    forall j | 0 <= j < |h'.free| ensures h'.free[j] < |h.owner| && h'.owner[h'.free[j]] == Free {
      assert h'.free[j] in h'.free;
      assert h'.free[j] in h.free;
    }
    SameOwners(h, h', run);
  }

  /** Turning some free pages into lost ones concerns no block and no owner. */
  lemma SameOwners(h: Heap, h': Heap, run: seq<nat>)
    requires Ok(h) && h' == h.(free := h'.free, owner := h'.owner) && |h'.owner| == |h.owner|
    requires forall k :: 0 <= k < |h.owner| ==> h'.owner[k] == if k in run then Lost else h.owner[k]
    requires forall k :: k in run ==> k < |h.owner| && h.owner[k] == Free
    requires FreeOk(h')
    ensures Ok(h')
  {
    hide InClass; hide ClassOk; hide Increasing; hide FreeOk;
    ClassesKept(h, h');
    OkFacts(h);
    forall b, c | 0 <= c < CLASSES && b >= 0 ensures BlockOk(h', b, c) { assert BlockOk(h, b, c); }
    forall k | 0 <= k < |h'.owner| ensures OwnerOk(h', k) { assert OwnerOk(h, k); }
    forall b | b in h'.live ensures LiveBlock(h', b) { assert LiveBlock(h, b); }
  }

  // ---------------------------------------------------------------------------------------
  // Whole pages

  ghost predicate AllLost(h: Heap, f: nat, n: nat)
  {
    n > 0 && f + n <= |h.owner| && forall k :: f <= k < f + n ==> h.owner[k] == Lost
  }

  /** A run of lost pages is handed out as one block. */
  function Claim(h: Heap, f: nat, n: nat): Heap
    requires f + n <= |h.owner|
  {
    h.(owner := seq(|h.owner|, k requires 0 <= k < |h.owner| => if f <= k < f + n then Whole(f, n) else h.owner[k]),
       live := h.live[PA(h.base, f) := PGSIZE * n])
  }

  lemma ClaimOwner(h: Heap, f: nat, n: nat, k: nat)
    requires AllLost(h, f, n) && k < |h.owner| && OwnerOk(h, k)
    ensures OwnerOk(Claim(h, f, n), k)
  {
    var h', o := Claim(h, f, n), h.owner[k];
    if o.Whole? {
      assert h.owner[o.first] == o;
      forall j | o.first <= j < o.first + o.count ensures h'.owner[j] == o { assert h.owner[j] == o; }
      assert o.first != f;
    }
  }

  /** The address of a lost page is no block. */
  lemma LostIsNoBlock(h: Heap, f: nat)
    requires Ok(h) && f < |h.owner| && h.owner[f] == Lost
    ensures PA(h.base, f) !in h.live && forall c :: c >= 0 ==> !InClass(h, PA(h.base, f), c)
  {
    PageArith(h.base, f, 0);
    assert PA(h.base, f) in h.live ==> LiveBlock(h, PA(h.base, f));
  }

  lemma ClaimOk(h: Heap, f: nat, n: nat)
    requires Ok(h) && AllLost(h, f, n)
    ensures Ok(Claim(h, f, n)) && PA(h.base, f) !in h.live
  {
    hide InClass; hide ClassOk; hide OwnerOk; hide Increasing;
    var h', p := Claim(h, f, n), PA(h.base, f);
    PageArith(h.base, f, 0);
    LostIsNoBlock(h, f);
    ClassesKept(h, h');
    OkFacts(h);
    forall b, c | 0 <= c < CLASSES && b >= 0 ensures BlockOk(h', b, c) { assert BlockOk(h, b, c); }
    forall k | 0 <= k < |h'.owner| ensures OwnerOk(h', k) { ClaimOwner(h, f, n, k); }
    forall b | b in h'.live ensures LiveBlock(h', b) {
      if b != p { assert LiveBlock(h, b); }
    }
  }

  /** A block of whole pages is given up; for a moment its pages belong to nobody. */
  function Unclaim(h: Heap, f: nat, n: nat): Heap
    requires f + n <= |h.owner|
  {
    h.(owner := seq(|h.owner|, k requires 0 <= k < |h.owner| => if f <= k < f + n then Lost else h.owner[k]),
       live := h.live - {PA(h.base, f)})
  }

  lemma UnclaimOwner(h: Heap, f: nat, n: nat, k: nat)
    requires Ok(h) && WholeAt(h, f, n) && k < |h.owner|
    ensures OwnerOk(Unclaim(h, f, n), k)
  {
    assert OwnerOk(h, k);
    hide Ok;
    PageArith(h.base, f, 0);
    var o := h.owner[k];
    if o.Whole? && !(f <= k < f + n) {
      assert o.first != f;
      WholesApart(h, f, n, o.first, o.count);
    }
  }

  lemma UnclaimLive(h: Heap, f: nat, n: nat, b: nat)
    requires Ok(h) && WholeAt(h, f, n) && b in h.live && b != PA(h.base, f)
    ensures LiveBlock(Unclaim(h, f, n), b)
  {
    LiveExtent(h, b);
    hide Ok;
    var o := h.owner[PageOf(h.base, b)];
    if o.Whole? { PageArith(h.base, o.first, 0); }
  }

  lemma WholeIsNoBlock(h: Heap, f: nat, n: nat)
    requires WholeAt(h, f, n)
    ensures forall c :: c >= 0 ==> !InClass(h, PA(h.base, f), c)
  {
    PageArith(h.base, f, 0);
  }

  lemma UnclaimOk(h: Heap, f: nat, n: nat)
    requires Ok(h) && WholeAt(h, f, n)
    ensures Ok(Unclaim(h, f, n)) && AllLost(Unclaim(h, f, n), f, n)
  {
    hide InClass; hide ClassOk; hide OwnerOk; hide Increasing; hide LiveBlock;
    var h' := Unclaim(h, f, n);
    WholeIsNoBlock(h, f, n);
    ClassesKept(h, h');
    OkFacts(h);
    forall b, c | 0 <= c < CLASSES && b >= 0 ensures BlockOk(h', b, c) { assert BlockOk(h, b, c); }
    forall k | 0 <= k < |h'.owner| ensures OwnerOk(h', k) { UnclaimOwner(h, f, n, k); }
    forall b | b in h'.live ensures LiveBlock(h', b) { UnclaimLive(h, f, n, b); }
  }

  /** Lost pages go to the free list. */
  function PutFree(h: Heap, f: nat, n: nat): Heap
    requires n > 0 && f + n <= |h.owner|
  {
    h.(owner := seq(|h.owner|, k requires 0 <= k < |h.owner| => if f <= k < f + n then Free else h.owner[k]),
       free := InsertRun(h.free, Range(f, n)))
  }

  lemma PutFreeList(h: Heap, f: nat, n: nat)
    requires FreeOk(h) && AllLost(h, f, n)
    ensures FreeOk(PutFree(h, f, n))
    ensures forall i :: 0 <= i < |h.free| ==> h.free[i] < f || h.free[i] > f + n - 1
  {
    var h', run := PutFree(h, f, n), Range(f, n);
    forall i | 0 <= i < |h.free| ensures h.free[i] < f || h.free[i] > run[n - 1] {
      assert h.owner[h.free[i]] == Free;
    }
    InsertIncreasing(h.free, run);
    InsertMembers(h.free, run);
    forall k | 0 <= k < |h'.owner| && h'.owner[k] == Free ensures k in h'.free {
      if f <= k < f + n { assert run[k - f] == k; }
    }
    forall i | 0 <= i < |h'.free| ensures h'.free[i] < |h'.owner| && h'.owner[h'.free[i]] == Free {
      assert h'.free[i] in h'.free;
    }
  }

  lemma PutFreeOwner(h: Heap, f: nat, n: nat, k: nat)
    requires AllLost(h, f, n) && k < |h.owner| && OwnerOk(h, k)
    ensures |PutFree(h, f, n).owner| == |h.owner| && OwnerOk(PutFree(h, f, n), k)
  {
    hide InsertRun;
    var h', o := PutFree(h, f, n), h.owner[k];
    if o.Whole? {
      forall j | o.first <= j < o.first + o.count ensures h'.owner[j] == Whole(o.first, o.count) {
        assert h.owner[j] == Whole(o.first, o.count);
      }
    }
  }

  lemma PutFreeOk(h: Heap, f: nat, n: nat)
    requires Ok(h) && AllLost(h, f, n)
    ensures Ok(PutFree(h, f, n))
    ensures forall i :: 0 <= i < |h.free| ==> h.free[i] < f || h.free[i] > f + n - 1
  {
    hide InsertRun; hide FreeOk; hide InClass; hide ClassOk; hide OwnerOk; hide Increasing;
    var h' := PutFree(h, f, n);
    PutFreeList(h, f, n);
    ClassesKept(h, h');
    OkFacts(h);
    forall b, c | 0 <= c < CLASSES && b >= 0 ensures BlockOk(h', b, c) { assert BlockOk(h, b, c); }
    forall k | 0 <= k < |h'.owner| ensures OwnerOk(h', k) { PutFreeOwner(h, f, n, k); }
    forall b | b in h'.live ensures LiveBlock(h', b) { assert LiveBlock(h, b); }
  }

  /** A block of whole pages goes back to the free list. */
  function Release(h: Heap, f: nat, n: nat): Heap
    requires n > 0 && f + n <= |h.owner|
  {
    PutFree(Unclaim(h, f, n), f, n)
  }

  // ---------------------------------------------------------------------------------------
  // Small blocks

  /** The macro NBP: the address of block `i`, with blocks of 2^pos bytes, in the page at `bp`. */
  function NBP(bp: nat, pos: nat, i: nat): nat
  {
    bp + i * Pow2(pos)
  }

  /** The addresses of the blocks of class `c` in page `k`. */
  function Blocks(base: nat, k: nat, c: nat): seq<nat>
    requires c < CLASSES
  {
    seq(BlockCount(c), i requires i >= 0 => NBP(PA(base, k), c + 3, i))
  }

  /** `bs` are exactly the blocks of class `c` in page `k`, in order. */
  ghost predicate PageBlocks(base: nat, k: nat, c: nat, bs: seq<nat>)
  {
    && bs != [] && Increasing(bs)
    && (forall i :: 0 <= i < |bs| ==>
      bs[i] >= base && PageOf(base, bs[i]) == k && Offset(base, bs[i]) % BlockSize(c) == 0)
    && (forall b :: b >= base && PageOf(base, b) == k && Offset(base, b) % BlockSize(c) == 0 ==> b in bs)
  }

  lemma BlocksCoverPage(base: nat, k: nat, c: nat)
    requires c < CLASSES
    ensures PageBlocks(base, k, c, Blocks(base, k, c))
  {
    var s, bs, n := BlockSize(c), Blocks(base, k, c), BlockCount(c);
    BlocksPerPage(c);
    hide BlockSize; hide BlockCount; hide PageOf; hide Offset; hide Pow2; hide NBP;
    forall i | 0 <= i < n ensures bs[i] >= base && PageOf(base, bs[i]) == k && Offset(base, bs[i]) % s == 0 {
      BlockOfPage(base, k, c, i);
    }
    forall i, j | 0 <= i < j < n ensures bs[i] < bs[j] {
      NBPOrder(PA(base, k), c + 3, i, j);
    }
    forall b | b >= base && PageOf(base, b) == k && Offset(base, b) % s == 0 ensures b in bs {
      var i := BlockIndex(base, k, c, b);
      assert bs[i] == b;
    }
  }

  lemma NBPOrder(bp: nat, pos: nat, i: nat, j: nat)
    requires i < j
    ensures NBP(bp, pos, i) < NBP(bp, pos, j)
  {
    MulOrder(i + 1, j, Pow2(pos));
  }

  lemma BlockIndex(base: nat, k: nat, c: nat, b: nat) returns (i: nat)
    requires c < CLASSES && b >= base && PageOf(base, b) == k && Offset(base, b) % BlockSize(c) == 0
    ensures i < BlockCount(c) && b == NBP(PA(base, k), c + 3, i)
  {
    BlocksPerPage(c);
    AddressArith(base, b);
    i := Offset(base, b) / BlockSize(c);
    assert Offset(base, b) == i * BlockSize(c);
    MulOrder(BlockCount(c), i, BlockSize(c));
  }

  lemma BlockOfPage(base: nat, k: nat, c: nat, i: nat)
    requires c < CLASSES && i < BlockCount(c)
    ensures var b := NBP(PA(base, k), c + 3, i);
      b >= base && PageOf(base, b) == k && Offset(base, b) % BlockSize(c) == 0
  {
    BlocksPerPage(c);
    var s := BlockSize(c);
    MulOrder(i + 1, BlockCount(c), s);
    PageArith(base, k, i * s);
    ModOfProduct(i, s);
  }

  lemma ModOfProduct(i: nat, s: nat)
    requires s > 0
    ensures i * s % s == 0
  {
    var q := i * s / s;
    MulOrder(q + 1, i, s);
    MulOrder(i + 1, q, s);
  }

  /** A lost page is cut into blocks of class `c`. */
  function CutPage(h: Heap, c: nat, k: nat, bs: seq<nat>): Heap
    requires c < |h.cls| && k < |h.owner|
  {
    h.(owner := h.owner[k := Small(c)], cls := h.cls[c := h.cls[c] + bs])
  }

  /** Page `k` may be cut for class `c`: it is lost, and the class has nothing but its head. */
  ghost predicate MayCut(h: Heap, c: nat, k: nat, bs: seq<nat>)
  {
    && Ok(h) && c < CLASSES && k < |h.owner| && h.owner[k] == Lost && |h.cls[c]| == 1 && k > c
    && PageBlocks(h.base, k, c, bs)
  }

  lemma CutPageOk(h: Heap, c: nat, k: nat, bs: seq<nat>)
    requires MayCut(h, c, k, bs)
    ensures Ok(CutPage(h, c, k, bs))
  {
    var h' := CutPage(h, c, k, bs);
    forall d | 0 <= d < CLASSES ensures ClassOk(h', d) {
      assert ClassOk(h, d);
      forall j | 0 <= j < |h.cls[d]| ensures InClass(h', h.cls[d][j], d) { assert InClass(h, h.cls[d][j], d); }
      if d == c { CutClassOk(h, c, k, bs); }
    }
    forall b, d | 0 <= d < CLASSES && b >= 0 ensures BlockOk(h', b, d) {
      CutBlockOk(h, c, k, bs, b, d);
    }
    forall j | 0 <= j < |h'.owner| ensures OwnerOk(h', j) { assert OwnerOk(h, j); }
    forall b | b in h'.live ensures LiveBlock(h', b) { assert LiveBlock(h, b); }
  }

  lemma CutClassOk(h: Heap, c: nat, k: nat, bs: seq<nat>)
    requires MayCut(h, c, k, bs)
    ensures ClassOk(CutPage(h, c, k, bs), c)
  {
    var h' := CutPage(h, c, k, bs);
    assert ClassOk(h, c) && InClass(h, h.cls[c][0], c);
    assert h'.cls[c] == [PA(h.base, c)] + bs;
    forall i | 0 <= i < |bs| ensures InClass(h', bs[i], c) && bs[i] > PA(h.base, c) { AddressArith(h.base, bs[i]); }
  }

  lemma CutBlockOk(h: Heap, c: nat, k: nat, bs: seq<nat>, b: nat, d: nat)
    requires MayCut(h, c, k, bs) && d < CLASSES
    ensures BlockOk(CutPage(h, c, k, bs), b, d)
  {
    var h' := CutPage(h, c, k, bs);
    assert BlockOk(h, b, d);
    if InClass(h', b, d) {
      if PageOf(h.base, b) == k {
        assert b in h.live ==> LiveBlock(h, b);
        assert h'.cls[c] == h.cls[c] + bs;
      } else {
        assert InClass(h, b, d);
      }
    }
  }

  /** The first block after the head is handed out. */
  function Pop(h: Heap, c: nat): Heap
    requires c < |h.cls| && |h.cls[c]| >= 2
  {
    h.(cls := h.cls[c := RemoveRun(h.cls[c], 1, 1)], live := h.live[h.cls[c][1] := BlockSize(c)])
  }

  lemma PopOk(h: Heap, c: nat)
    requires Ok(h) && c < CLASSES && |h.cls[c]| >= 2
    ensures Ok(Pop(h, c)) && h.cls[c][1] !in h.live
  {
    var h', p, xs := Pop(h, c), h.cls[c][1], h.cls[c];
    assert ClassOk(h, c);
    assert InClass(h, p, c) && BlockOk(h, p, c);
    RemoveIncreasing(xs, 1, 1);
    assert xs[1..2] == [p];
    assert p !in h'.cls[c];
    ListChange(h, h', c, p);
    forall d | 0 <= d < CLASSES ensures ClassOk(h', d) {
      assert ClassOk(h, d);
      forall i | 0 <= i < |h'.cls[d]| ensures InClass(h', h'.cls[d][i], d) {
        assert h'.cls[d][i] in h'.cls[d];
        assert h'.cls[d][i] in h.cls[d];
        var j :| 0 <= j < |h.cls[d]| && h.cls[d][j] == h'.cls[d][i];
        assert InClass(h, h.cls[d][j], d);
      }
    }
    forall b, d | 0 <= d < CLASSES && b >= 0 ensures BlockOk(h', b, d) {
      assert BlockOk(h, b, d);
      assert InClass(h', b, d) ==> InClass(h, b, d);
    }
    forall b | b in h'.live ensures LiveBlock(h', b) {
      if b != p { assert LiveBlock(h, b); }
    }
  }

  /** Moving one block of class `c` between its list and its user changes no page. */
  lemma ListChange(h: Heap, h': Heap, c: nat, p: nat)
    requires Ok(h) && c < CLASSES && InClass(h, p, c)
    requires h' == h.(cls := h'.cls, live := h'.live)
    requires h'.live - {p} == h.live - {p}
    ensures FreeOk(h') && forall k :: 0 <= k < |h'.owner| ==> OwnerOk(h', k)
  {
    forall k | 0 <= k < |h'.owner| ensures OwnerOk(h', k) {
      assert OwnerOk(h, k);
      var o := h.owner[k];
      if o.Whole? {
        PageArith(h.base, o.first, 0);
        assert h.owner[o.first] == o;
        var q := PA(h.base, o.first);
        assert q != p;
        assert q in h.live - {p} && (h.live - {p})[q] == h.live[q];
        assert q in h'.live - {p} && (h'.live - {p})[q] == h'.live[q];
      }
    }
  }

  /** A block goes back to its place in the class list. */
  function Push(h: Heap, c: nat, b: nat): Heap
    requires c < |h.cls|
  {
    h.(cls := h.cls[c := InsertRun(h.cls[c], [b])], live := h.live - {b})
  }

  lemma PushOk(h: Heap, c: nat, b: nat)
    requires Ok(h) && c < CLASSES && b in h.live && InClass(h, b, c)
    ensures Ok(Push(h, c, b)) && Rank(h.cls[c], b) >= 1
  {
    var h', xs := Push(h, c, b), h.cls[c];
    assert BlockOk(h, b, c) && ClassOk(h, c);
    HeadIsLowest(h, c, b);
    PushClassOk(h, c, b);
    InsertMembers(xs, [b]);
    ListChange(h, h', c, b);
    forall d | 0 <= d < CLASSES ensures ClassOk(h', d) {
      if d != c {
        assert ClassOk(h, d);
        forall i | 0 <= i < |h.cls[d]| ensures InClass(h', h.cls[d][i], d) { assert InClass(h, h.cls[d][i], d); }
      }
    }
    forall a, d | 0 <= d < CLASSES && a >= 0 ensures BlockOk(h', a, d) {
      assert BlockOk(h, a, d);
      assert InClass(h', a, d) ==> InClass(h, a, d);
    }
    forall a | a in h'.live ensures LiveBlock(h', a) { assert LiveBlock(h, a); }
  }

  lemma PushClassOk(h: Heap, c: nat, b: nat)
    requires Ok(h) && c < CLASSES && b in h.live && InClass(h, b, c)
    ensures ClassOk(Push(h, c, b), c)
  {
    var h', xs := Push(h, c, b), h.cls[c];
    assert BlockOk(h, b, c) && ClassOk(h, c);
    HeadIsLowest(h, c, b);
    InsertIncreasing(xs, [b]);
    var r := Rank(xs, b);
    forall i | 0 <= i < |h'.cls[c]| ensures InClass(h', h'.cls[c][i], c) {
      if i != r {
        var j := if i < r then i else i - 1;
        assert h'.cls[c][i] == xs[j];
        assert InClass(h, xs[j], c);
      }
    }
  }

  /** All blocks of a class lie above its head: the first pages belong to the heads, one each. */
  lemma HeadIsLowest(h: Heap, c: nat, b: nat)
    requires Ok(h) && c < CLASSES && InClass(h, b, c) && b in h.live
    ensures h.cls[c] != [] && b > PA(h.base, c) == h.cls[c][0] && Rank(h.cls[c], b) >= 1
  {
    assert ClassOk(h, c) && BlockOk(h, b, c);
    var k := PageOf(h.base, b);
    AddressArith(h.base, b);
    if k < CLASSES {
      assert ClassOk(h, k);
    }
    assert k >= c;
    assert b != h.cls[c][0];
  }

  // ---------------------------------------------------------------------------------------
  // Requests

  /** Where a single page comes from: the front of the free list, or else the top of the heap. */
  function PageSource(h: Heap): (Heap, nat)
  {
    if h.free == [] then (NewPages(h, 1), |h.owner|) else (TakeFree(h, 0, 1), h.free[0])
  }

  /** The heap once class `c` has a block to give away. */
  function Stocked(h: Heap, c: nat): Heap
    requires c < CLASSES && c < |h.cls|
  {
    if |h.cls[c]| >= 2 then h else
      var (g, k) := PageSource(h);
      if k < |g.owner| then CutPage(g, c, k, Blocks(g.base, k, c)) else h
  }

  /** Pages `i` to `i + n - 1` of the list follow one another in memory. */
  ghost predicate IsRun(fs: seq<nat>, i: nat, n: nat)
  {
    i + n <= |fs| && forall j :: i <= j < i + n ==> fs[j] == fs[i] + (j - i)
  }

  ghost predicate NoRun(fs: seq<nat>, n: nat)
  {
    forall i :: 0 <= i < |fs| ==> !IsRun(fs, i, n)
  }

  /** The first run of `n` pages in the list starts at `i`. */
  ghost predicate FirstFit(fs: seq<nat>, i: nat, n: nat)
  {
    IsRun(fs, i, n) && forall j :: 0 <= j < i ==> !IsRun(fs, j, n)
  }

  /** The longest run that reaches the end of the list starts at `t`. */
  ghost predicate TailStart(fs: seq<nat>, t: nat)
  {
    t < |fs| && IsRun(fs, t, |fs| - t) && (t > 0 ==> fs[t - 1] + 1 != fs[t])
  }

  /** A request for `n` pages that no listed run can satisfy: the trailing run is extended if it reaches
      the top of the heap; otherwise `n + 1` pages are taken from the top, and the trailing run is cut
      off the list unless it is the whole list. */
  function TailGrown(h: Heap, t: nat, n: nat): (Heap, nat)
    requires t < |h.free| < t + n
  {
    var count := |h.free| - t;
    if h.free[|h.free| - 1] == |h.owner| - 1 then
      (TakeFree(NewPages(h, n - count), t, count), h.free[t])
    else
      (if t > 0 then TakeFree(NewPages(h, n + 1), t, count) else NewPages(h, n + 1), |h.owner|)
  }

  /** What a request for `n >= 2` pages finds in `h0`: pages `f` to `f + n - 1`, in the state `g` where
      they belong to nobody yet.  Entry `s` of the free list starts the run found, or the trailing run. */
  ghost predicate RunFound(h0: Heap, n: nat, s: nat, g: Heap, f: nat)
  {
    if h0.free == [] then
      g == NewPages(h0, n) && f == |h0.owner|
    else if NoRun(h0.free, n) then
      TailStart(h0.free, s) && |h0.free| < s + n && (g, f) == TailGrown(h0, s, n)
    else
      FirstFit(h0.free, s, n) && g == TakeFree(h0, s, n) && f == h0.free[s]
  }

  lemma RunFoundCases(h: Heap, n: nat, s: nat)
    requires n > 0
    ensures h.free == [] ==> RunFound(h, n, s, NewPages(h, n), |h.owner|) && AllLost(NewPages(h, n), |h.owner|, n)
    ensures FirstFit(h.free, s, n) ==>
      s + n <= |h.free| && IsRun(h.free, s, n) && RunFound(h, n, s, TakeFree(h, s, n), h.free[s])
    ensures h.free != [] && NoRun(h.free, n) && TailStart(h.free, s) && |h.free| < s + n ==>
      var (g, f) := TailGrown(h, s, n); RunFound(h, n, s, g, f)
  {
  }

  /** A block given back by its user. */
  function Freed(h: Heap, b: nat): Heap
    requires b >= h.base && PageOf(h.base, b) < |h.owner|
  {
    match h.owner[PageOf(h.base, b)]
    case Small(c) => if c < |h.cls| then Push(h, c, b) else h
    case Whole(f, n) => if n > 0 && f + n <= |h.owner| then Release(h, f, n) else h
    case _ => h
  }
}
