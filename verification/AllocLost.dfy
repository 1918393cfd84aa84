/** Pages that belong to nobody for good: which calls of kernel/mem.c lose pages, and which do not. */
module AllocLost {
  import opened Common
  import opened AllocHeap
  import opened AllocSteps
  import opened AllocLinks
  import opened AllocRefines

  ghost function LostPages(h: Heap): set<nat>
  {
    set k | 0 <= k < |h.owner| && h.owner[k] == Lost
  }

  /** bigfind leaks on a request for `n` pages: the page list holds no such run, and its last page is
      not the last page of the heap. */
  ghost predicate Leaks(h: Heap, n: nat)
  {
    h.free != [] && NoRun(h.free, n) && h.free[|h.free| - 1] != |h.owner| - 1
  }

  /** What it leaks then: the last of the `n + 1` pages it takes from the top and, unless it is the whole
      list, the trailing run from entry `s` on. */
  ghost function Leaked(h: Heap, s: nat, n: nat): set<nat>
  {
    if Leaks(h, n) then {|h.owner| + n} + (if 0 < s <= |h.free| then set k | k in h.free[s..] else {}) else {}
  }

  /** The branches of bigfind one by one. */
  lemma LostNew(h: Heap, n: nat)
    ensures |NewPages(h, n).owner| == |h.owner| + n
    ensures LostPages(Claim(NewPages(h, n), |h.owner|, n)) == LostPages(h)
  {
    var w := Claim(NewPages(h, n), |h.owner|, n);
    forall k | 0 <= k < |w.owner| ensures w.owner[k] == if k < |h.owner| then h.owner[k] else Whole(|h.owner|, n) {}
  }

  lemma LostFit(h: Heap, s: nat, n: nat)
    requires Ok(h) && n > 0 && IsRun(h.free, s, n)
    ensures var f := h.free[s];
      |TakeFree(h, s, n).owner| == |h.owner| >= f + n && LostPages(Claim(TakeFree(h, s, n), f, n)) == LostPages(h)
  {
    TakenRunIsLost(h, s, n);
    RunSlice(h.free, s, n, h.free[s..s + n]);
    RunIsConsecutivePages(h, s, n);
  }

  lemma LostExtended(h: Heap, s: nat, n: nat)
    requires Ok(h) && TailStart(h.free, s) && |h.free| < s + n && h.free[|h.free| - 1] == |h.owner| - 1
    ensures var (g, f) := TailGrown(h, s, n); f + n <= |g.owner| && LostPages(Claim(g, f, n)) == LostPages(h)
  {
    var count, f := |h.free| - s, h.free[s];
    assert h.free[s + (count - 1)] == f + (count - 1);
    RunSlice(h.free, s, count, h.free[s..s + count]);
    FreeBelow(h);
    forall k | f <= k < f + count ensures k < |h.owner| && h.owner[k] == Free { assert h.free[s + (k - f)] == k; }
    hide Ok; hide TailStart; hide RemoveRun;
    var (g, _) := TailGrown(h, s, n);
    var w := Claim(g, f, n);
    forall k | 0 <= k < |w.owner| ensures w.owner[k] == if f <= k then Whole(f, n) else h.owner[k] {
      if k < f { assert k !in h.free[s..s + count]; }
    }
  }

  lemma LostAppended(h: Heap, s: nat, n: nat)
    requires Ok(h) && s < |h.free| < s + n && h.free[|h.free| - 1] != |h.owner| - 1 && NoRun(h.free, n)
    ensures var (g, f) := TailGrown(h, s, n);
      && f + n <= |g.owner| && LostPages(Claim(g, f, n)) == LostPages(h) + Leaked(h, s, n)
  {
    hide Ok; hide NoRun; hide TailGrown; hide Claim;
    var (g, f) := TailGrown(h, s, n);
    TailGrownOwner(h, s, n);
    var w := Claim(g, f, n);
    FreeBelow(h);
    forall k | k in h.free[s..] ensures k in h.free {}
    forall k: nat ensures k in LostPages(w) <==> k in LostPages(h) || k in Leaked(h, s, n) {}
  }

  /** The pages when a trailing run has been taken and `n` of `n + 1` pages from the top are in use. */
  lemma TailGrownOwner(h: Heap, s: nat, n: nat)
    requires s < |h.free| < s + n && h.free[|h.free| - 1] != |h.owner| - 1
    ensures var (g, f) := TailGrown(h, s, n);
      && f + n <= |g.owner|
      && var w := Claim(g, f, n);
         |w.owner| == |g.owner| == |h.owner| + n + 1 &&
         forall k :: 0 <= k < |w.owner| ==>
           w.owner[k] == if |h.owner| <= k < |h.owner| + n then Whole(f, n)
             else if (s > 0 && k in h.free[s..]) || k >= |h.owner| then Lost
             else h.owner[k]
  {
    assert h.free[s..s + (|h.free| - s)] == h.free[s..];
  }

  lemma FreeBelow(h: Heap)
    requires Ok(h)
    ensures forall k :: k in h.free ==> k < |h.owner| && h.owner[k] == Free
  {
  }

  /** bigfind conserves pages if and only if it does not come to that branch; and it is known what it
      loses there.  The condition can be read off the page list before the call. */
  lemma PagesConserved(h: Heap, n: nat, s: nat, g: Heap, f: nat)
    requires Ok(h) && n >= 2 && RunFound(h, n, s, g, f)
    ensures f + n <= |g.owner|
    ensures LostPages(Claim(g, f, n)) == LostPages(h) + Leaked(h, s, n)
    ensures Leaked(h, s, n) !! LostPages(h)
    ensures LostPages(Claim(g, f, n)) == LostPages(h) <==> !Leaks(h, n)
  {
    hide Ok; hide Claim; hide TailGrown; hide TakeFree; hide NewPages; hide LostPages; hide IsRun; hide NoRun;
    LeakedIsNew(h, s, n);
    if h.free == [] {
      LostNew(h, n);
    } else if NoRun(h.free, n) {
      if h.free[|h.free| - 1] == |h.owner| - 1 {
        LostExtended(h, s, n);
      } else {
        LostAppended(h, s, n);
      }
    } else {
      FirstFitIsRun(h.free, s, n);
      LostFit(h, s, n);
    }
  }

  lemma FirstFitIsRun(xs: seq<nat>, s: nat, n: nat)
    requires FirstFit(xs, s, n)
    ensures IsRun(xs, s, n)
  {
  }

  lemma LeakedIsNew(h: Heap, s: nat, n: nat)
    requires Ok(h)
    ensures Leaked(h, s, n) !! LostPages(h) && (Leaked(h, s, n) == {} <==> !Leaks(h, n))
  {
    FreeBelow(h);
    hide Ok; hide NoRun;
    if s <= |h.free| { forall k | k in h.free[s..] ensures k in h.free {} }
    assert Leaks(h, n) ==> |h.owner| + n in Leaked(h, s, n);
  }

  // ---------------------------------------------------------------------------------------
  // All other calls conserve pages

  lemma SmallConserves(h: Heap, c: nat)
    requires Ok(h) && c < CLASSES && Ok(Stocked(h, c)) && |Stocked(h, c).cls[c]| >= 2
    ensures LostPages(Pop(Stocked(h, c), c)) == LostPages(h)
  {
    FreeBelow(h);
    hide Ok;
    if |h.cls[c]| < 2 { SourceLoses(h); }
  }

  /** The page that a class or a single-page request gets is lost for a moment. */
  lemma SourceLoses(h: Heap)
    requires forall k :: k in h.free ==> k < |h.owner| && h.owner[k] == Free
    ensures var (g, k) := PageSource(h); k < |g.owner| && LostPages(g) == LostPages(h) + {k} && k !in LostPages(h)
  {
    var (g, k) := PageSource(h);
    if h.free != [] {
      assert h.free[0..1] == [h.free[0]];
      assert h.free[0] in h.free;
    }
  }

  lemma PageConserves(h: Heap)
    requires Ok(h)
    ensures var (g, k) := PageSource(h); k < |g.owner| && LostPages(Claim(g, k, 1)) == LostPages(h)
  {
    FreeBelow(h);
    hide Ok;
    SourceLoses(h);
  }

  lemma FreeConserves(h: Heap, b: nat)
    requires Ok(h) && b in h.live
    ensures b >= h.base && PageOf(h.base, b) < |h.owner| && LostPages(Freed(h, b)) == LostPages(h)
  {
    LiveExtent(h, b);
    var k := PageOf(h.base, b);
    assert OwnerOk(h, k);
    hide Ok; hide InsertRun; hide InClass;
    match h.owner[k]
    case Whole(f, n) => forall j | f <= j < f + n ensures h.owner[j] == Whole(f, n) {}
    case _ =>
  }

  lemma FreedConserves(h: Heap, next: Words, pages: seq<Page>, pagehead: nat, sizehead: seq<nat>, b: nat)
    requires Represents(h, next, pages, pagehead, sizehead) && b in h.live
    ensures b >= h.base && PageOf(h.base, b) < |h.owner| && LostPages(Freed(h, b)) == LostPages(h)
  {
    FreeConserves(h, b);
  }

  /** Requests up to a page, whatever their class. */
  lemma Conserves(h: Heap, next: Words, pages: seq<Page>, pagehead: nat, sizehead: seq<nat>)
    requires Represents(h, next, pages, pagehead, sizehead)
    ensures |h.cls| == CLASSES
    ensures forall c :: 0 <= c < CLASSES && Ok(Stocked(h, c)) && |Stocked(h, c).cls[c]| >= 2 ==>
      LostPages(Pop(Stocked(h, c), c)) == LostPages(h)
    ensures var (g, k) := PageSource(h); k < |g.owner| && LostPages(Claim(g, k, 1)) == LostPages(h)
  {
    PageConserves(h);
    forall c | 0 <= c < CLASSES && Ok(Stocked(h, c)) && |Stocked(h, c).cls[c]| >= 2
      ensures LostPages(Pop(Stocked(h, c), c)) == LostPages(h)
    {
      SmallConserves(h, c);
    }
  }

  // ---------------------------------------------------------------------------------------
  // A leak

  /** Two single pages are allocated after start-up, and the first is freed. */
  function TwoPages(base: nat): Heap
  {
    var h := InitialHeap(base);
    Claim(NewPages(Claim(NewPages(h, 1), CLASSES, 1), 1), CLASSES + 1, 1)
  }

  /** Then the page list is one page below the top of the heap, and a request for two pages leaks. */
  lemma LeakingState(base: nat)
    requires base > 0
    ensures Ok(TwoPages(base)) && PA(base, CLASSES) in TwoPages(base).live
    ensures var h := Freed(TwoPages(base), PA(base, CLASSES));
      && Ok(h) && h.free == [CLASSES] && Leaks(h, 2) && LostPages(h) == {} && Leaked(h, 0, 2) == {CLASSES + 4}
  {
    var h0 := InitialHeap(base);
    InitialOk(base);
    NewPagesOk(h0, 1);
    var h1 := Claim(NewPages(h0, 1), CLASSES, 1);
    ClaimOk(NewPages(h0, 1), CLASSES, 1);
    NewPagesOk(h1, 1);
    var h2 := Claim(NewPages(h1, 1), CLASSES + 1, 1);
    ClaimOk(NewPages(h1, 1), CLASSES + 1, 1);
    hide Ok; hide Blocks;
    PageArith(base, CLASSES, 0);
    assert WholeAt(h2, CLASSES, 1);
    UnclaimOk(h2, CLASSES, 1);
    PutFreeOk(Unclaim(h2, CLASSES, 1), CLASSES, 1);
  }
}
