/** What mm_malloc chooses, said of owners and live blocks alone: how much is granted, which block or which
    pages are taken, and that nothing else changes hands. */
module AllocChoice {
  import opened Common
  import opened AllocHeap
  import opened AllocSteps
  import opened AllocLinks
  import opened AllocRefines
  import opened AllocLost

  /** Up to a page, the least power of two from 8 on that is enough; beyond, whole pages, and no page more
      than needed. */
  ghost predicate Granted(size: nat, granted: nat)
  {
    if size <= 4096 then
      && (exists p: nat :: granted == Pow2(p)) && granted >= 8 && granted >= size
      && forall p: nat :: Pow2(p) >= 8 && Pow2(p) >= size ==> granted <= Pow2(p)
    else granted % 4096 == 0 && size <= granted < size + 4096
  }

  lemma GrantedSize(size: nat, pos: nat)
    requires pos >= 3 && size <= Pow2(pos) && (pos > 3 ==> Pow2(pos - 1) < size) && size <= PGSIZE * MAXRUN
    ensures pos < 12 <==> size <= 2048
    ensures pos < 12 ==> Granted(size, BlockSize(pos - 3))
    ensures pos == 12 ==> Granted(size, PGSIZE)
    ensures pos > 12 ==>
      var n := (size + PGSIZE - 1) / PGSIZE; 2 <= n <= MAXRUN && Granted(size, PGSIZE * n)
  {
    PowersToPage();
    if pos <= 11 { Pow2Monotone(pos, 11); } else { Pow2Monotone(11, pos - 1); }
    if pos <= 12 {
      LeastEnough(size, pos);
      Pow2Monotone(pos, 12);
    } else {
      Pow2Monotone(12, pos - 1);
      WholePages(size);
    }
  }

  lemma WholePages(size: nat)
    requires size > PGSIZE
    ensures var n := (size + PGSIZE - 1) / PGSIZE; n >= 2 && Granted(size, PGSIZE * n)
  {
  }

  lemma LeastEnough(size: nat, pos: nat)
    requires pos >= 3 && size <= Pow2(pos) && (pos > 3 ==> Pow2(pos - 1) < size)
    ensures Pow2(pos) >= 8 && forall p: nat :: Pow2(p) >= 8 && Pow2(p) >= size ==> Pow2(pos) <= Pow2(p)
  {
    PowersToPage();
    assert Pow2(2) == 4;
    Pow2Monotone(3, pos);
    forall p: nat | Pow2(p) >= 8 && Pow2(p) >= size ensures Pow2(pos) <= Pow2(p) {
      if p < pos {
        if pos > 3 { Pow2Monotone(p, pos - 1); } else { Pow2Monotone(p, 2); }
      } else {
        Pow2Monotone(pos, p);
      }
    }
  }

  // ---------------------------------------------------------------------------------------
  // Which block, which pages

  /** A block of class `c` that nobody holds, and that is not the head of its list. */
  ghost predicate FreeBlock(h: Heap, c: nat, b: nat)
  {
    InClass(h, b, c) && b !in h.live && b != PA(h.base, c)
  }

  ghost predicate LowestBlock(h: Heap, c: nat, b: nat)
  {
    FreeBlock(h, c, b) && forall x :: FreeBlock(h, c, x) ==> b <= x
  }

  ghost predicate LowestRun(h: Heap, n: nat, f: nat)
  {
    AllFree(h, f, n) && forall g: nat :: AllFree(h, g, n) ==> f <= g
  }

  /** All pages from `f` on are free, and the one before is not; `f` may be the end of the heap. */
  ghost predicate TopRun(h: Heap, f: nat)
  {
    f <= |h.owner| && (forall k :: f <= k < |h.owner| ==> h.owner[k] == Free) && (f > 0 ==> h.owner[f - 1] != Free)
  }

  /** Where `n` pages are taken: the lowest `n` free pages in a row, if there are any; otherwise from the free
      pages that reach the end of the heap, and beyond. */
  ghost predicate Placed(h: Heap, n: nat, f: nat)
  {
    if exists g: nat :: AllFree(h, g, n) then LowestRun(h, n, f) else TopRun(h, f)
  }

  /** Pages `f` to `f + n - 1` have a new owner, and no other page has, except for those lost. */
  ghost predicate Taken(h: Heap, h': Heap, f: nat, n: nat, o: Owner)
  {
    && f + n <= |h'.owner| && |h.owner| <= |h'.owner|
    && (forall k :: f <= k < f + n ==> h'.owner[k] == o)
    && (forall k :: 0 <= k < |h'.owner| && !(f <= k < f + n) && k !in LostPages(h') - LostPages(h) ==>
          k < |h.owner| && h'.owner[k] == h.owner[k])
  }

  /** A small block: the lowest free one of its class; if there is none, the first of a new page. */
  ghost predicate ChoseBlock(h: Heap, h': Heap, c: nat, ret: nat)
  {
    && InClass(h', ret, c)
    && if exists x :: FreeBlock(h, c, x) then LowestBlock(h, c, ret) && h'.owner == h.owner
       else exists f: nat :: Placed(h, 1, f) && ret == PA(h.base, f) && Taken(h, h', f, 1, Small(c))
  }

  ghost predicate ChoseSmall(h: Heap, h': Heap, granted: nat, ret: nat)
  {
    exists c: nat :: c < CLASSES && granted == BlockSize(c) && ChoseBlock(h, h', c, ret)
  }

  ghost predicate ChosePages(h: Heap, h': Heap, n: nat, ret: nat)
  {
    exists f: nat :: Placed(h, n, f) && ret == PA(h.base, f) && Taken(h, h', f, n, Whole(f, n))
  }

  // ---------------------------------------------------------------------------------------

  /** The page that a class or a request for one page gets. */
  lemma SourcePlaced(h: Heap)
    requires Ok(h)
    ensures var (g, k) := PageSource(h);
      && Placed(h, 1, k) && k < |g.owner| && |g.owner| == (if h.free == [] then |h.owner| + 1 else |h.owner|)
      && forall j :: 0 <= j < |g.owner| && j != k ==> j < |h.owner| && g.owner[j] == h.owner[j]
  {
    var (g, k) := PageSource(h);
    if h.free == [] {
      NoneFree(h, 1);
      TopIs(h, |h.owner|);
    } else {
      assert IsRun(h.free, 0, 1);
      FirstFitIs(h.free, 0, 1);
      RunPlaced(h, 0, 1);
      assert h.free[0..1] == [h.free[0]];
    }
  }

  lemma NoneFree(h: Heap, n: nat)
    requires Ok(h) && h.free == [] && n > 0
    ensures forall x: nat :: !AllFree(h, x, n)
  {
    forall x: nat ensures !AllFree(h, x, n) { assert x < |h.owner| ==> h.owner[x] != Free; }
  }

  lemma FirstFitIs(fs: seq<nat>, i: nat, n: nat)
    requires IsRun(fs, i, n) && i == 0
    ensures FirstFit(fs, i, n)
  {
  }

  lemma RunPlaced(h: Heap, i: nat, n: nat)
    requires Ok(h) && n > 0 && FirstFit(h.free, i, n)
    ensures Placed(h, n, h.free[i])
  {
    RunIsConsecutivePages(h, i, n);
    forall g: nat | AllFree(h, g, n) ensures h.free[i] <= g { FirstFitIsLowest(h, i, n, g); }
  }

  lemma SmallChoice(h: Heap, c: nat)
    requires Ok(h) && c < CLASSES && Ok(Stocked(h, c)) && |Stocked(h, c).cls[c]| >= 2
    ensures var s := Stocked(h, c); ChoseBlock(h, Pop(s, c), c, s.cls[c][1])
  {
    var s := Stocked(h, c);
    var ret, h' := s.cls[c][1], Pop(s, c);
    assert ClassOk(s, c) && ClassOk(h, c);
    if |h.cls[c]| >= 2 {
      LowestListed(h, c);
    } else {
      NoneListed(h, c);
      NewPageChoice(h, c);
    }
  }

  lemma LowestListed(h: Heap, c: nat)
    requires Ok(h) && c < CLASSES && |h.cls[c]| >= 2
    ensures LowestBlock(h, c, h.cls[c][1])
  {
    var b := h.cls[c][1];
    assert ClassOk(h, c) && BlockOk(h, b, c);
    forall x | FreeBlock(h, c, x) ensures b <= x { PopIsMinimum(h, c, x); }
  }

  lemma NoneListed(h: Heap, c: nat)
    requires Ok(h) && c < CLASSES && |h.cls[c]| < 2
    ensures forall x :: !FreeBlock(h, c, x)
  {
    assert ClassOk(h, c);
    forall x | InClass(h, x, c) ensures x in h.live || x == PA(h.base, c) { assert BlockOk(h, x, c); }
  }

  lemma NewPageChoice(h: Heap, c: nat)
    requires Ok(h) && c < CLASSES && |h.cls[c]| < 2 && Ok(Stocked(h, c))
    ensures var s, (_, k) := Stocked(h, c), PageSource(h);
      && |s.cls[c]| >= 2 && s.cls[c][1] == PA(h.base, k) && Placed(h, 1, k) && Taken(h, s, k, 1, Small(c))
  {
    SourcePlaced(h);
    SourceKeepsLive(h);
    assert ClassOk(h, c);
    hide Ok;
    var (g, k) := PageSource(h);
    FirstBlock(h.base, k, c);
  }

  lemma PageChoice(h: Heap)
    requires Ok(h)
    ensures var (g, k) := PageSource(h); k < |g.owner| && ChosePages(h, Claim(g, k, 1), 1, PA(h.base, k))
  {
    SourcePlaced(h);
    hide Ok;
    var (g, k) := PageSource(h);
    assert Taken(h, Claim(g, k, 1), k, 1, Whole(k, 1));
  }

  lemma RunChoice(h: Heap, n: nat, s: nat, g: Heap, f: nat)
    requires Ok(h) && n >= 2 && RunFound(h, n, s, g, f)
    ensures f + n <= |g.owner| && ChosePages(h, Claim(g, f, n), n, PA(h.base, f))
  {
    RunIsPlaced(h, n, s, g, f);
    RunIsTaken(h, n, s, g, f);
  }

  lemma RunIsPlaced(h: Heap, n: nat, s: nat, g: Heap, f: nat)
    requires Ok(h) && n >= 2 && RunFound(h, n, s, g, f)
    ensures Placed(h, n, f)
  {
    if h.free == [] {
      NoneFree(h, n);
      TopIs(h, f);
    } else if NoRun(h.free, n) {
      forall x: nat ensures !AllFree(h, x, n) { NoRunNoPages(h, n, x); }
      if h.free[|h.free| - 1] == |h.owner| - 1 { TailReaches(h, s); } else { TopIs(h, f); }
    } else {
      RunPlaced(h, s, n);
    }
  }

  /** If the last page is not free, the end of the heap is where free pages reach it. */
  lemma TopIs(h: Heap, f: nat)
    requires Ok(h) && f == |h.owner| && (h.free != [] ==> h.free[|h.free| - 1] != |h.owner| - 1)
    ensures TopRun(h, f)
  {
    if f > 0 {
      forall i | 0 <= i < |h.free| ensures h.free[i] != f - 1 { assert h.free[|h.free| - 1] < |h.owner|; }
    }
  }

  lemma TailReaches(h: Heap, s: nat)
    requires Ok(h) && TailStart(h.free, s) && h.free[|h.free| - 1] == |h.owner| - 1
    ensures TopRun(h, h.free[s])
  {
    var f, n := h.free[s], |h.free| - s;
    RunIsConsecutivePages(h, s, n);
    assert h.free[s + (n - 1)] == f + (n - 1);
    if f > 0 {
      forall i | 0 <= i < |h.free| ensures h.free[i] != f - 1 { assert i < s ==> h.free[i] <= h.free[s - 1]; }
    }
  }

  lemma RunIsTaken(h: Heap, n: nat, s: nat, g: Heap, f: nat)
    requires Ok(h) && n >= 2 && RunFound(h, n, s, g, f)
    ensures f + n <= |g.owner| && Taken(h, Claim(g, f, n), f, n, Whole(f, n))
  {
    PagesConserved(h, n, s, g, f);
    if h.free == [] {
    } else if NoRun(h.free, n) {
      if h.free[|h.free| - 1] == |h.owner| - 1 { ExtendedTaken(h, s, n); } else { AppendedTaken(h, s, n); }
    } else {
      TakenRunIsLost(h, s, n);
      RunSlice(h.free, s, n, h.free[s..s + n]);
      RunIsConsecutivePages(h, s, n);
    }
  }

  lemma ExtendedTaken(h: Heap, s: nat, n: nat)
    requires Ok(h) && TailStart(h.free, s) && |h.free| < s + n && h.free[|h.free| - 1] == |h.owner| - 1
    ensures var (g, f) := TailGrown(h, s, n); f + n <= |g.owner| && Taken(h, Claim(g, f, n), f, n, Whole(f, n))
  {
    var count, f := |h.free| - s, h.free[s];
    assert h.free[s + (count - 1)] == f + (count - 1);
    RunSlice(h.free, s, count, h.free[s..s + count]);
    hide Ok; hide TailStart; hide RemoveRun;
  }

  lemma AppendedTaken(h: Heap, s: nat, n: nat)
    requires Ok(h) && s < |h.free| < s + n && h.free[|h.free| - 1] != |h.owner| - 1
    ensures var (g, f) := TailGrown(h, s, n); f + n <= |g.owner| && Taken(h, Claim(g, f, n), f, n, Whole(f, n))
  {
    TailGrownOwner(h, s, n);
    FreeBelow(h);
    forall k | k in h.free[s..] ensures k in h.free {}
    hide Ok; hide TailGrown; hide Claim;
  }

  // ---------------------------------------------------------------------------------------
  // For the three branches of mm_malloc

  lemma SmallChosen(h: Heap, next: Words, pages: seq<Page>, pagehead: nat, sizehead: seq<nat>, c: nat)
    requires Represents(h, next, pages, pagehead, sizehead) && c < CLASSES
    ensures |h.cls| == CLASSES
    ensures Ok(Stocked(h, c)) && |Stocked(h, c).cls[c]| >= 2 ==>
      ChoseSmall(h, Pop(Stocked(h, c), c), BlockSize(c), Stocked(h, c).cls[c][1])
  {
    if Ok(Stocked(h, c)) && |Stocked(h, c).cls[c]| >= 2 { SmallChoice(h, c); }
  }

  lemma PageChosen(h: Heap, next: Words, pages: seq<Page>, pagehead: nat, sizehead: seq<nat>)
    requires Represents(h, next, pages, pagehead, sizehead)
    ensures var (g, k) := PageSource(h);
      k < |g.owner| && g.base == h.base && ChosePages(h, Claim(g, k, 1), 1, PA(h.base, k))
  {
    PageChoice(h);
  }

  lemma RunChosen(h: Heap, next: Words, pages: seq<Page>, pagehead: nat, sizehead: seq<nat>, n: nat)
    requires Represents(h, next, pages, pagehead, sizehead) && n >= 2
    ensures forall s: nat, g: Heap, f: nat :: RunFound(h, n, s, g, f) ==>
      f + n <= |g.owner| && g.base == h.base && ChosePages(h, Claim(g, f, n), n, PA(h.base, f))
  {
    forall s: nat, g: Heap, f: nat | RunFound(h, n, s, g, f)
      ensures f + n <= |g.owner| && g.base == h.base && ChosePages(h, Claim(g, f, n), n, PA(h.base, f))
    {
      RunChoice(h, n, s, g, f);
    }
  }

  // ---------------------------------------------------------------------------------------
  // What mm_free changes

  /** The block's pages are free if it was made of whole pages; no other page has a new owner. */
  ghost predicate OnlyFreed(h: Heap, h': Heap, k: nat)
  {
    && k < |h.owner| == |h'.owner|
    && forall j :: 0 <= j < |h.owner| ==>
         h'.owner[j] == if h.owner[k].Whole? && h.owner[j] == h.owner[k] then Free else h.owner[j]
  }

  lemma FreedOwners(h: Heap, next: Words, pages: seq<Page>, pagehead: nat, sizehead: seq<nat>, b: nat)
    requires Represents(h, next, pages, pagehead, sizehead) && b in h.live
    ensures b >= h.base && PageOf(h.base, b) < |h.owner|
    ensures Freed(h, b).base == h.base && OnlyFreed(h, Freed(h, b), PageOf(h.base, b))
  {
    LiveExtent(h, b);
    var k := PageOf(h.base, b);
    assert OwnerOk(h, k);
    if h.owner[k].Whole? { WholePagesOf(h, k); }
    hide Ok; hide InsertRun; hide InClass; hide Chain; hide FreeLinked; hide ClassesLinked; hide PagesOk; hide PageOf;
  }

  lemma WholePagesOf(h: Heap, k: nat)
    requires Ok(h) && k < |h.owner| && h.owner[k].Whole?
    ensures var o := h.owner[k];
      o.count > 0 && o.first + o.count <= |h.owner| &&
      forall j :: 0 <= j < |h.owner| ==> (h.owner[j] == o <==> o.first <= j < o.first + o.count)
  {
    assert OwnerOk(h, k);
    forall j | 0 <= j < |h.owner| && h.owner[j] == h.owner[k]
      ensures h.owner[k].first <= j < h.owner[k].first + h.owner[k].count { assert OwnerOk(h, j); }
  }
}
