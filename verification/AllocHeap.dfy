/** kernel/mem.c seen as ownership: who holds every page of the heap and every small block.

    A heap page is free, cut into blocks of one size class, part of a block handed out as whole
    pages, or lost.  Lost pages belong to nobody: a page passes through that state on its way from
    the free list to a new owner, and one branch of the page search really loses pages.
    Class `c` (0 to 8) holds the blocks of 2^(c+3) bytes, 8 to 2048. */
module AllocHeap {
  import opened Common

  const CLASSES: nat := 9

  datatype Owner = Free | Small(c: nat) | Whole(first: nat, count: nat) | Lost

  /** `free` lists page numbers; `cls` has one list of block addresses for each size class, in which
      the first block is the class's permanent head; `live` gives the blocks handed out and their
      sizes. */
  datatype Heap = Heap(base: nat, owner: seq<Owner>, free: seq<nat>, cls: seq<seq<nat>>, live: map<nat, nat>)

  function BlockSize(c: nat): (r: nat)
    ensures r >= 1
  {
    Pow2(c + 3)
  }

  /** How many blocks of class `c` fill a page. */
  function BlockCount(c: nat): nat
    requires c < CLASSES
  {
    Pow2(9 - c)
  }

  /** Address of a page. */
  function PA(base: nat, k: nat): nat
  {
    base + PGSIZE * k
  }

  function PageOf(base: nat, b: nat): nat
    requires b >= base
  {
    (b - base) / PGSIZE
  }

  function Offset(base: nat, b: nat): nat
    requires b >= base
  {
    (b - base) % PGSIZE
  }

  /** `b` is the address of a block of class `c`. */
  ghost predicate InClass(h: Heap, b: nat, c: nat)
  {
    && b >= h.base && PageOf(h.base, b) < |h.owner| && h.owner[PageOf(h.base, b)] == Small(c)
    && Offset(h.base, b) % BlockSize(c) == 0
  }

  ghost predicate Increasing(xs: seq<nat>)
  {
    forall i, j :: 0 <= i < j < |xs| ==> xs[i] < xs[j]
  }

  ghost predicate FreeOk(h: Heap)
  {
    && Increasing(h.free)
    && (forall i :: 0 <= i < |h.free| ==> h.free[i] < |h.owner| && h.owner[h.free[i]] == Free)
    && (forall k :: 0 <= k < |h.owner| && h.owner[k] == Free ==> k in h.free)
  }

  ghost predicate ClassOk(h: Heap, c: nat)
    requires c < |h.cls|
  {
    && h.cls[c] != [] && h.cls[c][0] == PA(h.base, c) && c < |h.owner| && h.owner[c] == Small(c)
    && Increasing(h.cls[c])
    && (forall i :: 0 <= i < |h.cls[c]| ==> InClass(h, h.cls[c][i], c))
  }

  /** A block of a class is either listed or handed out, never both and never neither. */
  ghost predicate BlockOk(h: Heap, b: nat, c: nat)
    requires c < |h.cls|
  {
    InClass(h, b, c) ==>
      if b in h.live then b !in h.cls[c] && h.live[b] == BlockSize(c) else b in h.cls[c]
  }

  ghost predicate WholeAt(h: Heap, f: nat, n: nat)
  {
    && n > 0 && f + n <= |h.owner|
    && (forall j :: f <= j < f + n ==> h.owner[j] == Whole(f, n))
    && PA(h.base, f) in h.live && h.live[PA(h.base, f)] == PGSIZE * n
  }

  ghost predicate OwnerOk(h: Heap, k: nat)
    requires k < |h.owner|
  {
    var o := h.owner[k];
    && (o.Small? ==> o.c < CLASSES)
    && (o.Whole? ==> o.first <= k < o.first + o.count && WholeAt(h, o.first, o.count))
  }

  /** A block handed out is a block of a class or a run of whole pages. */
  ghost predicate LiveBlock(h: Heap, b: nat)
  {
    && b >= h.base && PageOf(h.base, b) < |h.owner|
    && var o := h.owner[PageOf(h.base, b)];
       || (o.Small? && InClass(h, b, o.c))
       || (o.Whole? && b == PA(h.base, o.first))
  }

  ghost predicate Ok(h: Heap)
  {
    && h.base > 0 && |h.cls| == CLASSES
    && FreeOk(h)
    && (forall c :: 0 <= c < CLASSES ==> ClassOk(h, c))
    && (forall b, c :: 0 <= c < CLASSES && b >= 0 ==> BlockOk(h, b, c))
    && (forall k :: 0 <= k < |h.owner| ==> OwnerOk(h, k))
    && (forall b :: b in h.live ==> LiveBlock(h, b))
  }

  // ---------------------------------------------------------------------------------------
  // Arithmetic

  lemma PageArith(base: nat, k: nat, o: nat)
    requires o < PGSIZE
    ensures PA(base, k) + o >= base
    ensures PageOf(base, PA(base, k) + o) == k && Offset(base, PA(base, k) + o) == o
  {
    var x := PGSIZE * k + o;
    assert PA(base, k) + o - base == x;
    assert x / 4096 == k && x % 4096 == o;
  }

  lemma AddressArith(base: nat, b: nat)
    requires b >= base
    ensures b == PA(base, PageOf(base, b)) + Offset(base, b) && Offset(base, b) < PGSIZE
  {
  }

  /** The block sizes divide a page. */
  lemma BlocksPerPage(c: nat)
    requires c < CLASSES
    ensures 8 <= BlockSize(c) <= 2048 && BlockCount(c) >= 2 && PGSIZE == BlockCount(c) * BlockSize(c)
    ensures PGSIZE / BlockSize(c) == BlockCount(c) && PGSIZE % BlockSize(c) == 0
  {
    assert Pow2(3) == 8 && Pow2(4) == 16 && Pow2(5) == 32 && Pow2(6) == 64 && Pow2(7) == 128 && Pow2(8) == 256;
    assert Pow2(9) == 512 && Pow2(10) == 1024 && Pow2(11) == 2048 && Pow2(2) == 4 && Pow2(1) == 2;
  }

  /** Different multiples of the block size are at least one block apart. */
  lemma MultiplesApart(x: nat, y: nat, s: nat)
    requires s > 0 && x % s == 0 && y % s == 0 && x < y
    ensures x + s <= y
  {
    var i, j := x / s, y / s;
    assert x == i * s && y == j * s;
    MulOrder(j, i, s);
    MulOrder(i + 1, j, s);
  }

  lemma MulOrder(i: nat, j: nat, s: nat)
    ensures i <= j ==> i * s <= j * s
  {
    if i <= j {
      assert j * s == i * s + (j - i) * s;
    }
  }

  // ---------------------------------------------------------------------------------------
  // What the ownership invariant gives: safety

  /** The bytes of a block. */
  lemma BlockInPage(h: Heap, b: nat, c: nat)
    requires Ok(h) && InClass(h, b, c) && c < CLASSES
    ensures Offset(h.base, b) + BlockSize(c) <= PGSIZE
  {
    BlocksPerPage(c);
    var s := BlockSize(c);
    MultiplesApart(Offset(h.base, b), PGSIZE, s);
  }

  /** Blocks of one class do not overlap. */
  lemma ClassBlocksApart(h: Heap, a: nat, b: nat, c: nat, d: nat)
    requires Ok(h) && InClass(h, a, c) && InClass(h, b, d) && c < CLASSES && d < CLASSES && a != b
    ensures !Overlap(a, BlockSize(c), b, BlockSize(d))
  {
    BlockInPage(h, a, c);
    BlockInPage(h, b, d);
    AddressArith(h.base, a);
    AddressArith(h.base, b);
    if PageOf(h.base, a) == PageOf(h.base, b) {
      if a < b {
        MultiplesApart(Offset(h.base, a), Offset(h.base, b), BlockSize(c));
      } else {
        MultiplesApart(Offset(h.base, b), Offset(h.base, a), BlockSize(c));
      }
    }
  }

  /** The pages a live block occupies: exactly those its owner entry names. */
  lemma LiveExtent(h: Heap, b: nat)
    requires Ok(h) && b in h.live
    ensures b >= h.base && PageOf(h.base, b) < |h.owner|
    ensures b + h.live[b] <= PA(h.base, |h.owner|) && h.live[b] > 0
    ensures var o := h.owner[PageOf(h.base, b)];
      if o.Small? then
        o.c < CLASSES && InClass(h, b, o.c) && h.live[b] == BlockSize(o.c) && Offset(h.base, b) + h.live[b] <= PGSIZE
      else
        o.Whole? && b == PA(h.base, o.first) && h.live[b] == PGSIZE * o.count && WholeAt(h, o.first, o.count)
  {
    assert LiveBlock(h, b);
    var k := PageOf(h.base, b);
    assert OwnerOk(h, k);
    AddressArith(h.base, b);
    if h.owner[k].Small? {
      assert BlockOk(h, b, h.owner[k].c);
      BlockInPage(h, b, h.owner[k].c);
    }
  }

  /** No two blocks handed out share a byte, and all of them lie in registered heap pages. */
  lemma LiveBlocksDisjoint(h: Heap, a: nat, b: nat)
    requires Ok(h) && a in h.live && b in h.live && a != b
    ensures !Overlap(a, h.live[a], b, h.live[b])
    ensures h.base <= a && a + h.live[a] <= PA(h.base, |h.owner|)
  {
    LiveExtent(h, a);
    LiveExtent(h, b);
    AddressArith(h.base, a);
    AddressArith(h.base, b);
    var oa, ob := h.owner[PageOf(h.base, a)], h.owner[PageOf(h.base, b)];
    if oa.Small? && ob.Small? {
      ClassBlocksApart(h, a, b, oa.c, ob.c);
    } else if oa.Whole? && ob.Whole? {
      PageArith(h.base, oa.first, 0);
      PageArith(h.base, ob.first, 0);
      WholesApart(h, oa.first, oa.count, ob.first, ob.count);
    } else if oa.Whole? {
      WholeApart(h, oa.first, oa.count, b, h.live[b]);
    } else {
      WholeApart(h, ob.first, ob.count, a, h.live[a]);
    }
  }

  lemma WholesApart(h: Heap, f: nat, n: nat, g: nat, m: nat)
    requires WholeAt(h, f, n) && WholeAt(h, g, m) && f != g
    ensures f + n <= g || g + m <= f
  {
    var j := if f < g then g else f;
    assert h.owner[j] == if f < g then Whole(g, m) else Whole(f, n);
  }

  /** A run of whole pages does not reach into a page of another owner. */
  lemma WholeApart(h: Heap, f: nat, n: nat, b: nat, size: nat)
    requires WholeAt(h, f, n) && b >= h.base && PageOf(h.base, b) < |h.owner|
    requires h.owner[PageOf(h.base, b)] != Whole(f, n) && Offset(h.base, b) + size <= PGSIZE
    ensures !Overlap(PA(h.base, f), PGSIZE * n, b, size)
  {
    AddressArith(h.base, b);
    var k := PageOf(h.base, b);
    assert !(f <= k < f + n);
  }

  /** No block handed out touches a page on the free list or a block on a class list, the permanent
      heads included. */
  lemma LiveApartFromLists(h: Heap, b: nat)
    requires Ok(h) && b in h.live
    ensures forall i :: 0 <= i < |h.free| ==> !Overlap(b, h.live[b], PA(h.base, h.free[i]), PGSIZE)
    ensures forall c, i :: 0 <= c < CLASSES && 0 <= i < |h.cls[c]| ==> !Overlap(b, h.live[b], h.cls[c][i], BlockSize(c))
  {
    LiveExtent(h, b);
    AddressArith(h.base, b);
    var o := h.owner[PageOf(h.base, b)];
    forall i | 0 <= i < |h.free| ensures !Overlap(b, h.live[b], PA(h.base, h.free[i]), PGSIZE) {
      PageArith(h.base, h.free[i], 0);
      if o.Whole? {
        WholeApart(h, o.first, o.count, PA(h.base, h.free[i]), PGSIZE);
      }
    }
    forall c, i | 0 <= c < CLASSES && 0 <= i < |h.cls[c]| ensures !Overlap(b, h.live[b], h.cls[c][i], BlockSize(c)) {
      var a := h.cls[c][i];
      assert ClassOk(h, c);
      assert InClass(h, a, c);
      BlockInPage(h, a, c);
      if o.Small? {
        assert BlockOk(h, b, o.c);
        ClassBlocksApart(h, b, a, o.c, c);
      } else {
        WholeApart(h, o.first, o.count, a, BlockSize(c));
      }
    }
  }
}
