/** kernel/mem.c: the kernel's memory manager.  Running out of heap panics in the source; here the
    methods then return `ok == false` and promise nothing more about the halted state. */
module Alloc {
  import opened Common
  import opened AllocHeap
  import opened AllocSteps
  import opened AllocLinks
  import opened AllocRefines
  import opened AllocLost
  import opened AllocSpares
  import opened AllocChoice

  class Allocator {
    var heapTop: nat
    var heapEnd: nat
    var next: Words
    var sizehead: seq<nat>
    var pagehead: nat
    var pages: seq<Page>
    ghost var h: Heap

    ghost predicate Valid()
      reads this
    {
      && Represents(h, next, pages, pagehead, sizehead)
      && heapTop == PA(h.base, |h.owner|) <= heapEnd
    }

    /** _log2: the least exponent whose power reaches `size`. */
    method Log2(size: nat) returns (pos: nat)
      ensures size <= Pow2(pos) && (pos > 0 ==> Pow2(pos - 1) < size)
    {
      pos := 0;
      while size > Pow2(pos)
        invariant pos > 0 ==> Pow2(pos - 1) < size
        decreases size - Pow2(pos)
      {
        pos := pos + 1;
      }
    }

    method Sbrk(size: nat) returns (ok: bool, p: nat)
      modifies this`heapTop
      ensures ok <==> old(heapTop) + size <= heapEnd
      ensures heapTop == old(heapTop) + (if ok then size else 0)
      ensures p == old(heapTop)
    {
      p := heapTop;
      if size + heapTop > heapEnd {
        ok := false;
      } else {
        heapTop := heapTop + size;
        ok := true;
      }
    }

    /** allocpage: one more page, registered with `word`. */
    method AllocPage(word: nat) returns (ok: bool, p: nat)
      requires Valid()
      modifies this`heapTop, this`pages, this`h
      ensures !ok ==> heapTop + PGSIZE > heapEnd
      ensures ok ==> Valid() && h == NewPages(old(h), 1)
      ensures ok ==> p == PA(h.base, |old(h).owner|) && pages == old(pages) + [Page(p, word)]
      ensures ok ==> |pages| == |h.owner| == |old(h).owner| + 1 && h.owner[|old(h).owner|] == Lost
    {
      ok, p := Sbrk(PGSIZE);
      if ok {
        pages := pages + [Page(p, word)];
        NewPagesOk(h, 1);
        h := NewPages(h, 1);
      }
    }

    /** The loop that extends the heap by `n` pages in use. */
    method Grow(n: nat) returns (ok: bool)
      requires Valid()
      modifies this`heapTop, this`pages, this`h
      ensures !ok ==> heapTop + PGSIZE > heapEnd
      ensures ok ==> Valid() && h == NewPages(old(h), n)
      ensures ok ==> |pages| == |old(pages)| + n && pages[..|old(pages)|] == old(pages)
    {
      ok := true;
      assert h.owner + [] == h.owner;
      for i := 0 to n
        invariant Valid() && h == NewPages(old(h), i)
        invariant |pages| == |old(pages)| + i && pages[..|old(pages)|] == old(pages)
      {
        var p;
        ok, p := AllocPage(BIGBIT + 1);
        if !ok {
          return;
        }
        assert h.owner == old(h).owner + seq(i + 1, _ => Lost);
      }
    }

    /** getinfobybp */
    method InfoOf(bp: nat) returns (info: Page)
      requires Valid() && bp >= h.base && PageOf(h.base, bp) < |h.owner|
      ensures info == pages[PageOf(h.base, bp)]
    {
      PageTable(h, next, pages, pagehead, sizehead);
      hide Represents;
      info := pages[(bp - pages[0].start) / PGSIZE];
    }

    /** setinfobybp for the page that starts at `bp`. */
    method SetInfo(bp: nat, info: Page, ghost k: nat)
      requires |pages| > 0 && pages[0].start == h.base && k < |pages| && bp == PA(h.base, k)
      modifies this`pages
      ensures pages == old(pages)[k := info]
    {
      PageArith(h.base, k, 0);
      pages := pages[(bp - pages[0].start) / PGSIZE := info];
    }

    /** getpage: the first page of the list, or a new one. */
    method GetPage(word: nat) returns (ok: bool, p: nat, ghost k: nat)
      requires Valid()
      modifies this
      ensures heapEnd == old(heapEnd)
      ensures !ok ==> old(h).free == [] && heapTop + PGSIZE > heapEnd
      ensures ok ==> Valid() && next == old(next) && sizehead == old(sizehead)
      ensures ok ==> (h, k) == PageSource(old(h))
      ensures ok ==> k < |h.owner| == |pages| && h.owner[k] == Lost && p == PA(h.base, k) && pages[k].word == word
    {
      HeadOfFree(h, next, pagehead);
      if h.free != [] {
        TakeFirstRefines(h, next, pages, pagehead, sizehead, word);
      }
      hide Ok; hide PagesOk; hide FreeLinked; hide ClassesLinked; hide TakeFree;
      if pagehead == 0 {
        k := |h.owner|;
        ok, p := AllocPage(word);
      } else {
        p := pagehead;
        ok := true;
        k := h.free[0];
        SetInfo(p, Page(p, word), k);
        pagehead := next[p];
        h := TakeFree(h, 0, 1);
      }
    }

    /** acquireonepage: a page cut into blocks, linked in order of their addresses. */
    method AcquireOnePage(pos: nat) returns (ok: bool, p: nat, ghost k: nat)
      requires Valid() && 3 <= pos < 12
      modifies this
      ensures heapEnd == old(heapEnd)
      ensures !ok ==> old(h).free == [] && heapTop + PGSIZE > heapEnd
      ensures ok ==> Valid() && sizehead == old(sizehead)
      ensures ok ==> (h, k) == PageSource(old(h))
      ensures ok ==>
        k < |h.owner| == |pages| && h.owner[k] == Lost && p == PA(h.base, k) &&
        pages[k].word == 1 + Pow2(pos)
      ensures ok ==>
        Chain(next, Blocks(h.base, k, pos - 3)) &&
        PageBlocks(h.base, k, pos - 3, Blocks(h.base, k, pos - 3))
      ensures ok ==> Spares(old(h).live, old(next), next)
    {
      SourceKeepsLive(h);
      hide Spares;
      ok, p, k := GetPage(1 + Pow2(pos));
      if !ok {
        return;
      }
      LinkBlocks(p, pos, k);
    }

    /** The loop of acquireonepage. */
    method LinkBlocks(p: nat, pos: nat, ghost k: nat)
      requires Valid() && 3 <= pos < 12 && k < |h.owner| && h.owner[k] == Lost && p == PA(h.base, k)
      modifies this`next
      ensures Valid()
      ensures Chain(next, Blocks(h.base, k, pos - 3)) && PageBlocks(h.base, k, pos - 3, Blocks(h.base, k, pos - 3))
      ensures Spares(h.live, old(next), next)
    {
      hide Spares; hide NoBlock; hide PageBlocks; hide Chain; hide LinkAll; hide Blocks; hide OwnerAt; hide Increasing;
      ghost var c := pos - 3;
      ghost var bs := Blocks(h.base, k, c);
      BlocksCoverPage(h.base, k, c);
      BlocksOwner(h, k, c, bs);
      LinkAllElsewhere(h, next, pagehead, sizehead, bs);
      LinkAllChains(next, bs);
      BlocksNoBlock(h, k, c, bs);
      LinkAllSpares(h.live, next, bs);
      BlocksInCount(h.base, k, pos);
      LinkBlocksLoop(p, pos, bs);
    }

    method LinkBlocksLoop(p: nat, pos: nat, ghost bs: seq<nat>)
      requires 3 <= pos < 12 && |bs| == BlocksIn(pos) >= 2 && forall j :: 0 <= j < |bs| ==> bs[j] == NBP(p, pos, j)
      modifies this`next
      ensures next == LinkAll(old(next), bs)
    {
      hide NBP; hide BlocksIn;
      var n := BlocksIn(pos);
      for i := 0 to n - 1
        invariant next == LinkUpTo(old(next), bs, i)
      {
        next := next[NBP(p, pos, i) := NBP(p, pos, i + 1)];
      }
      next := next[NBP(p, pos, n - 1) := 0];
    }

    /** smallfind: the first block after the head of the class list. */
    method SmallFind(pos: nat) returns (ok: bool, pret: nat)
      requires Valid() && 3 <= pos < 12
      modifies this
      ensures heapEnd == old(heapEnd)
      ensures !ok ==> |old(h).cls[pos - 3]| == 1 && old(h).free == [] && heapTop + PGSIZE > heapEnd
      ensures ok ==> Valid() && pret != 0
      ensures ok ==> var s := Stocked(old(h), pos - 3);
        Ok(s) && |s.cls[pos - 3]| >= 2 && h == Pop(s, pos - 3) && pret == s.cls[pos - 3][1]
      ensures ok ==> Spares(old(h).live, old(next), next)
    {
      hide Spares; hide NoBlock; hide Represents; hide PageSource; hide Blocks; hide PageBlocks; hide Chain;
      ghost var c := pos - 3;
      ghost var live, next0 := h.live, next;
      SourceKeepsLive(h);
      SparesSelf(live, next);
      ClassFacts(h, next, pages, pagehead, sizehead, c);
      if next[sizehead[pos]] == 0 {
        var p;
        ghost var k;
        ok, p, k := AcquireOnePage(pos);
        if !ok {
          pret := 0;
          return;
        }
        CutPageRefines(h, next, pages, pagehead, sizehead, c, k, Blocks(h.base, k, c));
        FirstBlock(h.base, k, c);
        ClassFacts(h, next, pages, pagehead, sizehead, c);
        StoreSpares(live, next, sizehead[pos], p);
        SparesBoth(live, next0, next, next[sizehead[pos] := p]);
        next := next[sizehead[pos] := p];
        h := CutPage(h, c, k, Blocks(h.base, k, c));
      }
      ok := true;
      ClassFacts(h, next, pages, pagehead, sizehead, c);
      pret := next[sizehead[pos]];
      if pret != 0 {
        PopRefines(h, next, pages, pagehead, sizehead, c);
        StoreSpares(live, next, sizehead[pos], next[pret]);
        SparesBoth(live, next0, next, next[sizehead[pos] := next[pret]]);
        next := next[sizehead[pos] := next[pret]];
        h := Pop(h, c);
      } else {
        assert false;
      }
    }

    /** adjustpages: the pages of a block given up are chained, and marked unused. */
    method AdjustPages(n: nat, bp: nat, ghost f: nat) returns (pto: nat)
      requires Valid() && AllLost(h, f, n) && bp == PA(h.base, f)
      modifies this`next, this`pages
      ensures Valid() && pto == PA(h.base, f + n - 1)
      ensures Chain(next, PageRun(h.base, f, n))
      ensures Spares(h.live, old(next), next)
    {
      hide Spares; hide NoBlock; hide Ok; hide PageRun; hide FreeLinked; hide ClassesLinked; hide Chain;
      hide Increasing; hide PageOf; hide OwnerAt; hide LinkAll;
      ghost var run := PageRun(h.base, f, n);
      PageRunFacts(h.base, f, n);
      LinkAllChains(next, run);
      PagesOwner(h, f, n);
      LinkAllElsewhere(h, next, pagehead, sizehead, run);
      PagesNoBlock(h, f, n);
      LinkAllSpares(h.live, next, run);
      pto := AdjustPagesLoop(n, bp, f, run);
    }

    /** The loop of adjustpages. */
    method AdjustPagesLoop(n: nat, bp: nat, ghost f: nat, ghost run: seq<nat>) returns (pto: nat)
      requires PagesOk(h, pages) && AllLost(h, f, n) && |run| == n && bp == run[0]
      requires forall j :: 0 <= j < n ==> run[j] == PA(h.base, f + j)
      modifies this`next, this`pages
      ensures PagesOk(h, pages) && pto == run[n - 1] && next == LinkAll(old(next), run)
    {
      pto := bp;
      for i := 0 to n - 1
        invariant pto == run[i] && PagesOk(h, pages)
        invariant next == LinkUpTo(old(next), run, i)
      {
        next := next[pto := pto + PGSIZE];
        SetInfo(pto, Page(pto, 0), f + i);
        assert PagesOk(h, pages);
        pto := pto + PGSIZE;
        assert pto == run[i + 1];
      }
      next := next[pto := 0];
      SetInfo(pto, Page(pto, 0), f + n - 1);
    }

    /** The loop that walks a sorted list up to the place of `bp`. */
    method FindSlot(start: nat, bp: nat, ghost xs: seq<nat>) returns (lp: nat, p: nat)
      requires Chain(next, xs) && start == AtOrNull(xs, 0) && forall i :: 0 <= i < |xs| ==> xs[i] > 0
      ensures var r := Rank(xs, bp); p == AtOrNull(xs, r) && lp == if r == 0 then 0 else xs[r - 1]
    {
      p, lp := start, 0;
      ghost var i := 0;
      while p != 0 && bp > p
        invariant 0 <= i <= Rank(xs, bp) && p == AtOrNull(xs, i) && lp == (if i == 0 then 0 else xs[i - 1])
        decreases |xs| - i
      {
        lp := p;
        p := next[p];
        i := i + 1;
      }
    }

    /** mm_free of a block of two pages or more: its pages, chained, go to their place in the page list. */
    method FreePages(bp: nat, n: nat, ghost f: nat)
      requires Valid() && WholeAt(h, f, n) && bp == PA(h.base, f)
      modifies this`next, this`pages, this`pagehead, this`h
      ensures Valid() && h == Release(old(h), f, n) && Spares(h.live, old(next), next)
    {
      hide Represents; hide PutFree; hide Unclaim; hide Spares;
      ghost var next0 := next;
      UnclaimRefines(h, next, pages, pagehead, sizehead, f, n);
      h := Unclaim(h, f, n);
      var pend := AdjustPages(n, bp, f);
      ghost var next1 := next;
      InsertRunOfPages(bp, pend, n, f);
      SparesBoth(h.live, next0, next1, next);
    }

    /** mm_free of a single page. */
    method FreeOnePage(bp: nat, ghost f: nat)
      requires Valid() && WholeAt(h, f, 1) && bp == PA(h.base, f)
      modifies this`next, this`pages, this`pagehead, this`h
      ensures Valid() && h == Release(old(h), f, 1) && Spares(h.live, old(next), next)
    {
      hide Represents; hide Unclaim; hide Spares;
      UnclaimRefines(h, next, pages, pagehead, sizehead, f, 1);
      h := Unclaim(h, f, 1);
      InsertPage(bp, f);
      SetInfoRefines(h, next, pages, pagehead, sizehead, f, 0);
      SetInfo(bp, Page(bp, 0), f);
    }

    /** The insertion of one page into the page list. */
    method InsertPage(bp: nat, ghost f: nat)
      requires Valid() && AllLost(h, f, 1) && bp == PA(h.base, f)
      modifies this`next, this`pagehead, this`h
      ensures Valid() && h == PutFree(old(h), f, 1) && h.live == old(h).live && Spares(h.live, old(next), next)
    {
      hide Represents; hide AllLost; hide RunLinked; hide Chain; hide Spliced; hide PA; hide PageRun; hide Addrs;
      hide Rank; hide PutFree; hide AtOrNull; hide PageOf; hide Increasing; hide Spares; hide NoBlock;
      ghost var run, m, oldhead := PageRun(h.base, f, 1), next, pagehead;
      RunStart(h, next, pages, pagehead, sizehead, f, 1);
      SinglePage(h, next, pages, pagehead, sizehead, f);
      InsertSpares(h, next, pages, pagehead, sizehead, f, 1);
      SplicePage(bp, Addrs(h.base, h.free));
      PutFreeRefines(h, m, oldhead, next, pages, sizehead, f, 1);
      SplicedSpares(h.live, m, Addrs(h.base, h.free), run, next);
      h := PutFree(h, f, 1);
    }

    /** The stores that put one page into the page list. */
    method SplicePage(bp: nat, ghost xs: seq<nat>)
      requires Chain(next, xs) && pagehead == AtOrNull(xs, 0) && (forall i :: 0 <= i < |xs| ==> xs[i] > 0) && bp !in xs
      modifies this`next, this`pagehead
      ensures Spliced(old(next), xs, [bp], next)
      ensures pagehead == if Rank(xs, bp) == 0 then bp else old(pagehead)
    {
      if pagehead == 0 {
        pagehead := bp;
        next := next[pagehead := 0];
      } else if pagehead < bp {
        var lp, p := FindSlot(pagehead, bp, xs);
        if p != 0 && bp < p {
          next := next[lp := bp];
          next := next[bp := p];
        } else if p == 0 {
          next := next[lp := bp];
          next := next[bp := 0];
        }
      } else {
        next := next[bp := pagehead];
        pagehead := bp;
      }
    }

    /** mm_free of a small block: it goes to its place in the list of its class. */
    method FreeSmall(bp: nat, pos: nat)
      requires Valid() && 3 <= pos < 12 && bp in h.live && InClass(h, bp, pos - 3)
      modifies this`next, this`h
      ensures Valid() && |old(h).cls| == CLASSES && h == Push(old(h), pos - 3, bp)
      ensures Spares(h.live, old(next), next)
    {
      hide Represents; hide InClass; hide Push; hide Spares; hide NoBlock; hide Spliced; hide Chain;
        hide Increasing; hide Rank;
      ghost var c, m := pos - 3, next;
      ClassStart(h, next, pages, pagehead, sizehead, c, bp);
      FreeSpares(h, next, pages, pagehead, sizehead, c, bp);
      SpliceBlock(bp, pos, h.cls[c]);
      PushRefines(h, m, next, pages, pagehead, sizehead, c, bp);
      SplicedSpares(Push(h, c, bp).live, m, h.cls[c], [bp], next);
      h := Push(h, c, bp);
    }

    /** The stores that put a block into the list of its class. */
    method SpliceBlock(bp: nat, pos: nat, ghost xs: seq<nat>)
      requires Chain(next, xs) && xs != [] && pos < |sizehead| && sizehead[pos] == xs[0]
      requires (forall i :: 0 <= i < |xs| ==> xs[i] > 0) && bp !in xs && Rank(xs, bp) >= 1
      modifies this`next
      ensures Spliced(old(next), xs, [bp], next)
    {
      var lp, p := FindSlot(sizehead[pos], bp, xs);
      if p != 0 && bp < p {
        next := next[lp := bp];
        next := next[bp := p];
      } else if p == 0 {
        next := next[lp := bp];
        next := next[bp := 0];
      }
    }

    /** The insertion of a chained run of pages into the page list. */
    method InsertRunOfPages(bp: nat, pend: nat, n: nat, ghost f: nat)
      requires Valid() && AllLost(h, f, n) && bp == PA(h.base, f) && pend == PA(h.base, f + n - 1)
      requires RunLinked(next, PageRun(h.base, f, n))
      modifies this`next, this`pagehead, this`h
      ensures Valid() && h == PutFree(old(h), f, n) && h.live == old(h).live && Spares(h.live, old(next), next)
    {
      hide Represents; hide AllLost; hide RunLinked; hide Chain; hide Spliced; hide PA; hide PageRun; hide Addrs;
      hide Rank; hide PutFree; hide AtOrNull; hide PageOf; hide Increasing; hide Spares; hide NoBlock;
      ghost var run, m, oldhead := PageRun(h.base, f, n), next, pagehead;
      RunStart(h, next, pages, pagehead, sizehead, f, n);
      InsertSpares(h, next, pages, pagehead, sizehead, f, n);
      SpliceRun(bp, pend, Addrs(h.base, h.free), run);
      PutFreeRefines(h, m, oldhead, next, pages, sizehead, f, n);
      SplicedSpares(h.live, m, Addrs(h.base, h.free), run, next);
      h := PutFree(h, f, n);
    }

    /** The stores that put a chained run into the page list, by its three branches. */
    method SpliceRun(bp: nat, pend: nat, ghost xs: seq<nat>, ghost run: seq<nat>)
      requires Chain(next, xs) && pagehead == AtOrNull(xs, 0) && forall i :: 0 <= i < |xs| ==> xs[i] > 0
      requires run != [] && run[0] == bp && run[|run| - 1] == pend
      modifies this`next, this`pagehead
      ensures Spliced(old(next), xs, run, next)
      ensures pagehead == if Rank(xs, bp) == 0 then bp else old(pagehead)
    {
      if pagehead == 0 {
        pagehead := bp;
        next := next[pend := 0];
      } else if pagehead < bp {
        var lp, p := FindSlot(pagehead, bp, xs);
        next := next[lp := bp];
        next := next[pend := p];
      } else {
        next := next[pend := pagehead];
        pagehead := bp;
      }
    }

    /** mm_free: the information word of the block's page says how to give it back. */
    method Free(bp: nat)
      requires Valid() && bp in h.live
      modifies this
      ensures heapEnd == old(heapEnd) && heapTop == old(heapTop)
      ensures Valid() && bp >= old(h).base && PageOf(old(h).base, bp) < |old(h).owner| && h == Freed(old(h), bp)
      ensures h.live == old(h).live - {bp} && Spares(h.live, old(next), next)
      ensures h.base == old(h).base && OnlyFreed(old(h), h, PageOf(old(h).base, bp))
      ensures LostPages(h) == LostPages(old(h))
    {
      hide Spares; hide LostPages; hide Represents; hide PageOf; hide Freed; hide PA; hide OnlyFreed;
      FreedLive(h, next, pages, pagehead, sizehead, bp);
      FreedConserves(h, next, pages, pagehead, sizehead, bp);
      FreedOwners(h, next, pages, pagehead, sizehead, bp);
      GiveBack(bp);
    }

    /** The branches of mm_free. */
    method GiveBack(bp: nat)
      requires Valid() && bp in h.live
      modifies this
      ensures heapEnd == old(heapEnd) && heapTop == old(heapTop)
      ensures Valid() && bp >= old(h).base && PageOf(old(h).base, bp) < |old(h).owner| && h == Freed(old(h), bp)
      ensures Spares(h.live, old(next), next)
    {
      hide Spares; hide Represents; hide InClass; hide WholeAt; hide PageOf; hide Push; hide Release; hide Freed;
      hide PA;
      LiveWord(h, next, pages, pagehead, sizehead, bp);
      var info := InfoOf(bp);
      if info.word / BIGBIT % 2 == 0 {
        var used := info.word % 2;
        if used == 0 {
          assert false;
        }
        var posbit := info.word - used;
        var pos := Log2(posbit);
        LeastPower(pos, posbit);
        if pos < 12 {
          FreeSmall(bp, pos);
        } else {
          FreeOnePage(bp, PageOf(h.base, bp));
        }
      } else {
        FreePages(bp, info.word % BIGBIT, PageOf(h.base, bp));
      }
    }

    /** The search of bigfind: it stops at the first run of `n` pages, or at the end of the list. */
    method Search(n: nat, ghost base: nat, ghost fs: seq<nat>)
      returns (count: nat, ret: nat, pret: nat, lp: nat, p: nat, ghost s: nat)
      requires n >= 2 && fs != [] && Chain(next, Addrs(base, fs)) && pagehead == PA(base, fs[0])
      requires forall i :: 0 <= i < |fs| ==> PA(base, fs[i]) > 0
      ensures 1 <= count <= n && s + count <= |fs|
      ensures ret == PA(base, fs[s]) && pret == if s == 0 then 0 else PA(base, fs[s - 1])
      ensures count == n ==> FirstFit(fs, s, n) && p == PA(base, fs[s + n - 1])
      ensures count < n ==> NoRun(fs, n) && TailStart(fs, s) && s + count == |fs| && lp == PA(base, fs[|fs| - 1])
    {
      hide Scan; hide FirstFit; hide NoRun; hide TailStart; hide PA; hide Chain;
      ghost var xs := Addrs(base, fs);
      ScanStart(fs, n);
      ChainAt(next, xs, 0);
      count := 1;
      p := next[pagehead];
      lp := pagehead;
      var llp := 0;
      ret, pret := lp, 0;
      ghost var q := 0;
      s := 0;
      while p != 0
        invariant q < |xs| && lp == xs[q] && p == AtOrNull(xs, q + 1) && llp == if q == 0 then 0 else xs[q - 1]
        invariant Scan(fs, n, s, q) && s <= q && count == q - s + 1 < n && ret == xs[s] &&
          pret == if s == 0 then 0 else xs[s - 1]
        decreases |xs| - q
      {
        Neighbours(base, fs[q], fs[q + 1]);
        if lp + PGSIZE == p {
          ScanExtend(fs, n, s, q);
          if count == 1 {
            count := count + 1;
            pret := llp;
            ret := lp;
          } else {
            count := count + 1;
          }
          if n == count {
            return;
          }
        } else {
          ScanRestart(fs, n, s, q);
          ret := p;
          pret := lp;
          count := 1;
          s := q + 1;
        }
        llp := lp;
        lp := p;
        q := q + 1;
        ChainAt(next, xs, q);
        p := next[p];
      }
      ScanEnd(fs, n, s);
    }

    /** istop: the page at `bp` is the last page of the heap. */
    method IsTop(bp: nat, ghost k: nat) returns (top: bool)
      requires Valid() && bp == PA(h.base, k)
      ensures top <==> k == |h.owner| - 1
    {
      PageTable(h, next, pages, pagehead, sizehead);
      PageArith(h.base, k, 0);
      top := (bp - pages[0].start) / PGSIZE == |pages| - 1;
    }

    /** The first `count` pages from the top of the heap, the first one registered with `word`. */
    method AllocRun(word: nat, count: nat) returns (ok: bool, ret: nat)
      requires Valid() && count > 0
      modifies this`heapTop, this`pages, this`h
      ensures !ok ==> heapTop + PGSIZE > heapEnd
      ensures ok ==> Valid() && h == NewPages(old(h), count) && ret == PA(h.base, |old(h).owner|)
    {
      ok, ret := AllocPage(word);
      if ok {
        ok := Grow(count - 1);
        NewPagesTwice(old(h), 1, count - 1);
      }
    }

    /** The branch of bigfind that has found a run. */
    method TakeFound(n: nat, ret: nat, pret: nat, p: nat, ghost s: nat)
      requires Valid() && n > 0 && IsRun(h.free, s, n) && ret == PA(h.base, h.free[s])
      requires p == PA(h.base, h.free[s + n - 1]) && pret == if s == 0 then 0 else PA(h.base, h.free[s - 1])
      modifies this`next, this`pagehead, this`h
      ensures h.base == old(h).base && Valid() && s + n <= |old(h).free| && h == TakeFree(old(h), s, n) &&
        AllLost(h, old(h).free[s], n)
      ensures Spares(old(h).live, old(next), next)
    {
      hide Represents; hide TakeFree; hide IsRun; hide PA; hide AllLost; hide Addrs; hide Spares; hide NoBlock;
      PredecessorSpares(h, next, pages, pagehead, sizehead, s);
      SparesSelf(h.live, next);
      FoundRun(h, next, pages, pagehead, sizehead, s, n);
      TakeRunRefines(h, next, pages, pagehead, sizehead, s, n);
      if ret == pagehead {
        pagehead := next[p];
      } else {
        StoreSpares(h.live, next, pret, next[p]);
        next := next[pret := next[p]];
      }
      h := TakeFree(h, s, n);
    }

    /** The branch of bigfind that extends the trailing run at the top of the heap. */
    method ExtendTail(n: nat, count: nat, ret: nat, pret: nat, ghost s: nat) returns (ok: bool)
      requires Valid() && 0 < count < n && s + count == |h.free| && TailStart(h.free, s)
      requires ret == PA(h.base, h.free[s]) && pret == if s == 0 then 0 else PA(h.base, h.free[s - 1])
      requires h.free[|h.free| - 1] == |h.owner| - 1
      modifies this`heapTop, this`next, this`pages, this`pagehead, this`h
      ensures !ok ==> heapTop + PGSIZE > heapEnd
      ensures ok ==>
        h.base == old(h).base && Valid() && h == TakeFree(NewPages(old(h), n - count), s, count) &&
        AllLost(h, old(h).free[s], n)
      ensures ok ==> Spares(old(h).live, old(next), next)
    {
      hide Represents; hide TakeFree; hide IsRun; hide PA; hide AllLost; hide TailStart; hide NewPages; hide Addrs;
      hide Spares; hide NoBlock;
      PredecessorSpares(h, next, pages, pagehead, sizehead, s);
      SparesSelf(h.live, next);
      TailExtended(h, next, pages, pagehead, sizehead, s, n);
      NewPagesLive(h, n - count);
      ok := Grow(n - count);
      if !ok {
        return;
      }
      TailRun(h, next, pages, pagehead, sizehead, s, count);
      TakeRunRefines(h, next, pages, pagehead, sizehead, s, count);
      if ret == pagehead {
        pagehead := 0;
      } else {
        StoreSpares(h.live, next, pret, 0);
        next := next[pret := 0];
      }
      h := TakeFree(h, s, count);
    }

    /** The branch of bigfind for a trailing run below the top of the heap: it takes one page too many
        from the top, and cuts the trailing run off the list. */
    method AppendRun(n: nat, count: nat, pret: nat, ghost s: nat) returns (ok: bool, ret: nat)
      requires Valid() && 0 < count < n && s + count == |h.free| && TailStart(h.free, s)
      requires pret == if s == 0 then 0 else PA(h.base, h.free[s - 1])
      modifies this`heapTop, this`next, this`pages, this`h
      ensures !ok ==> heapTop + PGSIZE > heapEnd
      ensures ok ==>
        h.base == old(h).base && Valid() && ret == PA(h.base, |old(h).owner|) &&
        AllLost(h, |old(h).owner|, n)
      ensures ok ==> h == if s > 0 then TakeFree(NewPages(old(h), n + 1), s, count) else NewPages(old(h), n + 1)
      ensures ok ==> Spares(old(h).live, old(next), next)
    {
      hide Represents; hide TakeFree; hide IsRun; hide PA; hide AllLost; hide TailStart; hide NewPages; hide Addrs;
      hide Spares; hide NoBlock;
      PredecessorSpares(h, next, pages, pagehead, sizehead, s);
      SparesSelf(h.live, next);
      TailCut(h, next, pages, pagehead, sizehead, s, n);
      NewPagesLive(h, n + 1);
      ok, ret := AllocRun(BIGBIT + n, n + 1);
      if !ok {
        return;
      }
      TailRun(h, next, pages, pagehead, sizehead, s, count);
      TakeRunRefines(h, next, pages, pagehead, sizehead, s, count);
      if pret != 0 {
        StoreSpares(h.live, next, pret, 0);
        next := next[pret := 0];
        h := TakeFree(h, s, count);
      }
    }

    /** bigfind: `n` consecutive pages. */
    method BigFind(n: nat) returns (ok: bool, ret: nat, ghost s: nat, ghost g: Heap, ghost f: nat)
      requires Valid() && 2 <= n <= MAXRUN
      modifies this
      ensures heapEnd == old(heapEnd)
      ensures !ok ==> heapTop + PGSIZE > heapEnd
      ensures ok ==> Valid() && ret == PA(h.base, f) && ret !in g.live
      ensures ok ==> RunFound(old(h), n, s, g, f) && AllLost(g, f, n) && h == Claim(g, f, n)
      ensures ok ==> Spares(old(h).live, old(next), next)
      ensures ok ==> LostPages(h) == LostPages(old(h)) + Leaked(old(h), s, n)
      ensures ok ==> (LostPages(h) == LostPages(old(h)) <==> !Leaks(old(h), n))
    {
      hide RunFound; hide AllLost; hide PA; hide NewPages; hide Spares; hide LostPages; hide Leaked;
      hide Leaks; hide Ok; hide PagesOk; hide FreeLinked; hide ClassesLinked;
      HeadOfFree(h, next, pagehead);
      ghost var h0 := h;
      SparesSelf(h.live, next);
      if pagehead == 0 {
        s := 0;
        RunFoundCases(h, n, s);
        f := |h.owner|;
        ok, ret := AllocRun(BIGBIT + n, n);
      } else {
        ok, ret, s, f := FindInList(n);
      }
      g := h;
      if ok {
        ClaimRun(ret, n, f);
        PagesConserved(h0, n, s, g, f);
      }
    }

    /** bigfind when the page list is not empty. */
    method FindInList(n: nat) returns (ok: bool, ret: nat, ghost s: nat, ghost f: nat)
      requires Valid() && 2 <= n <= MAXRUN && h.free != []
      modifies this`heapTop, this`next, this`pages, this`pagehead, this`h
      ensures !ok ==> heapTop + PGSIZE > heapEnd
      ensures ok ==> Valid() && ret == PA(h.base, f) && RunFound(old(h), n, s, h, f) && AllLost(h, f, n)
      ensures ok ==> Spares(old(h).live, old(next), next)
    {
      hide Represents; hide RunFound; hide AllLost; hide PA; hide PageOf; hide TakeFree; hide NewPages;
      hide TailStart; hide NoRun; hide FirstFit; hide IsRun; hide Addrs; hide Chain; hide AtOrNull; hide Spares;
      SearchStart(h, next, pages, pagehead, sizehead);
      var count, pret, lp, p;
      count, ret, pret, lp, p, s := Search(n, h.base, h.free);
      RunFoundCases(h, n, s);
      f := h.free[s];
      if count == n {
        TakeFound(n, ret, pret, p, s);
        ok := true;
      } else {
        var top := IsTop(lp, h.free[|h.free| - 1]);
        if top {
          ok := ExtendTail(n, count, ret, pret, s);
        } else {
          f := |h.owner|;
          ok, ret := AppendRun(n, count, pret, s);
        }
      }
    }

    /** The end of bigfind: the run found is registered as one block. */
    method ClaimRun(ret: nat, n: nat, ghost f: nat)
      requires Valid() && 2 <= n <= MAXRUN && AllLost(h, f, n) && ret == PA(h.base, f)
      modifies this`pages, this`h
      ensures Valid() && h == Claim(old(h), f, n) && ret !in old(h).live
    {
      SetInfoRefines(h, next, pages, pagehead, sizehead, f, BIGBIT + n);
      hide Represents; hide Claim;
      SetInfo(ret, Page(ret, BIGBIT + n), f);
      ClaimRefines(h, next, pages, pagehead, sizehead, f, n);
      h := Claim(h, f, n);
    }

    /** mm_malloc */
    method Malloc(size: nat) returns (ok: bool, ret: nat)
      requires Valid()
      modifies this
      ensures heapEnd == old(heapEnd)
      ensures !ok ==> heapTop + PGSIZE > heapEnd
      ensures ok ==> Valid() && (ret == 0 <==> size > MAXREQUEST) && (ret == 0 ==> h == old(h))
      ensures ok && ret != 0 ==>
        && ret !in old(h).live && ret in h.live && h.live == old(h).live[ret := h.live[ret]]
        && Granted(size, h.live[ret])
      ensures ok && size <= 2048 ==> ChoseSmall(old(h), h, h.live[ret], ret)
      ensures ok && 2048 < size <= MAXREQUEST ==> ChosePages(old(h), h, PagesFor(size), ret)
      ensures ok ==> Spares(old(h).live, old(next), next)
      ensures ok ==> LostPages(old(h)) <= LostPages(h)
      ensures ok ==> (LostPages(h) == LostPages(old(h)) <==> !RequestLeaks(old(h), size))
    {
      hide Represents; hide Spares; hide LostPages; hide Leaks; hide Granted; hide ChoseSmall; hide ChosePages;
      SparesSelf(h.live, next);
      var pos := Log2(size);
      if pos <= 3 {
        pos := 3;
      }
      ret, ok := 0, true;
      BigRequest(size, pos);
      if size > MAXREQUEST {
        return;
      }
      GrantedSize(size, pos);
      if pos < 12 {
        ok, ret := TakeBlock(pos);
      } else if pos == 12 {
        ok, ret := TakePage();
      } else {
        ok, ret := TakeRun((size + PGSIZE - 1) / PGSIZE);
      }
    }

    /** The branch of mm_malloc for small blocks. */
    method TakeBlock(pos: nat) returns (ok: bool, ret: nat)
      requires Valid() && 3 <= pos < 12
      modifies this
      ensures heapEnd == old(heapEnd)
      ensures !ok ==> heapTop + PGSIZE > heapEnd
      ensures ok ==> Valid() && ret != 0 && ret !in old(h).live && h.live == old(h).live[ret := BlockSize(pos - 3)]
      ensures ok ==> ChoseSmall(old(h), h, BlockSize(pos - 3), ret) && Spares(old(h).live, old(next), next)
      ensures ok ==> LostPages(h) == LostPages(old(h))
    {
      hide Represents; hide Stocked; hide PageSource; hide Spares; hide LostPages; hide ChoseSmall;
      Conserves(h, next, pages, pagehead, sizehead);
      SmallChosen(h, next, pages, pagehead, sizehead, pos - 3);
      StockedKeepsLive(h, next, pages, pagehead, sizehead, pos - 3);
      ok, ret := SmallFind(pos);
    }

    /** The branch of mm_malloc for two pages or more. */
    method TakeRun(n: nat) returns (ok: bool, ret: nat)
      requires Valid() && 2 <= n <= MAXRUN
      modifies this
      ensures heapEnd == old(heapEnd)
      ensures !ok ==> heapTop + PGSIZE > heapEnd
      ensures ok ==> Valid() && ret != 0 && ret !in old(h).live && h.live == old(h).live[ret := PGSIZE * n]
      ensures ok ==> ChosePages(old(h), h, n, ret) && Spares(old(h).live, old(next), next)
      ensures ok ==> LostPages(old(h)) <= LostPages(h) && (LostPages(h) == LostPages(old(h)) <==> !Leaks(old(h), n))
    {
      hide Represents; hide RunFound; hide PA; hide Spares; hide LostPages; hide Leaks; hide Leaked; hide ChosePages;
      ghost var s, g, f;
      ghost var h0 := h;
      RunChosen(h, next, pages, pagehead, sizehead, n);
      ok, ret, s, g, f := BigFind(n);
      if ok {
        FoundKeepsLive(h0, n, s, g, f);
        LiveNotNull(h, next, pages, pagehead, sizehead, ret);
      }
    }

    /** The one-page branch of mm_malloc. */
    method TakePage() returns (ok: bool, ret: nat)
      requires Valid()
      modifies this
      ensures heapEnd == old(heapEnd)
      ensures !ok ==> heapTop + PGSIZE > heapEnd
      ensures ok ==> Valid() && ret != 0 && ret !in old(h).live && h.live == old(h).live[ret := PGSIZE]
      ensures ok ==> ChosePages(old(h), h, 1, ret) && Spares(old(h).live, old(next), next)
      ensures ok ==> LostPages(h) == LostPages(old(h))
    {
      ghost var k;
      SourceKeepsLive(h);
      SparesSelf(h.live, next);
      PageChosen(h, next, pages, pagehead, sizehead);
      Conserves(h, next, pages, pagehead, sizehead);
      hide Represents; hide PageSource; hide PA; hide Spares; hide LostPages; hide ChosePages; hide Claim;
      ok, ret, k := GetPage(1 + PGSIZE);
      if ok {
        ClaimPage(ret, k);
      }
    }

    /** The page found is handed out. */
    ghost method ClaimPage(ret: nat, k: nat)
      requires Valid() && k < |h.owner| == |pages| && h.owner[k] == Lost
      requires ret == PA(h.base, k) && pages[k].word == 1 + PGSIZE
      modifies this`h
      ensures Valid() && h == Claim(old(h), k, 1) && ret != 0 && ret !in old(h).live
      ensures h.live == old(h).live[ret := PGSIZE]
    {
      hide Represents;
      ClaimRefines(h, next, pages, pagehead, sizehead, k, 1);
      h := Claim(h, k, 1);
      LiveNotNull(h, next, pages, pagehead, sizehead, ret);
    }

    /** The user of a block may write anything into it. */
    method UserWrite(b: nat, m: Words)
      requires Valid() && b in h.live
      requires forall x :: x in next && !Overlap(x, WORD, b, h.live[b]) ==> x in m && m[x] == next[x]
      modifies this`next
      ensures Valid() && next == m
    {
      WriteRefines(h, next, pages, pagehead, sizehead, b, m);
      hide Represents;
      next := m;
    }

    /** mm_init, on the memory from `top` to `end`. */
    method Init(top: nat, end: nat) returns (ok: bool)
      requires 0 < top <= end
      modifies this
      ensures ok ==> Valid() && h == InitialHeap(top + TableSize(top, end)) && heapEnd == end
      ensures ok ==> h.live == map[] && h.free == [] && |h.owner| == 9
      ensures ok ==> forall c :: 0 <= c < 9 ==> h.owner[c] == Small(c)
      ensures !ok ==> top + TableSize(top, end) + PGSIZE * CLASSES > end
    {
      hide FirstClasses; hide PA; hide Represents; hide InitialHeap; hide Blocks; hide BlocksIn; hide TableSize;
      hide PageRoundUp;
      StartTable(top, end);
      heapTop, heapEnd, pages, next, sizehead := top, end, [], map[], seq(32, _ => 0);
      var p;
      ok, p := Sbrk(PageRoundUp((end - top) / PGSIZE) * PAGESIZEOF);
      if !ok {
        return;
      }
      pagehead := 0;
      ghost var base := heapTop;
      NoClasses(base, next, sizehead);
      for i := 3 to 12
        invariant heapEnd == end && pagehead == 0 && base == top + TableSize(top, end)
        invariant heapTop == PA(base, i - 3) <= heapEnd && |sizehead| == 32
        invariant FirstClasses(base, i - 3, next, pages, sizehead)
      {
        FewerPages(base, i - 3);
        ok, p := Sbrk(PGSIZE);
        if !ok {
          return;
        }
        BlocksInCount(base, i - 3, i);
        BlocksAt(base, i - 3, i);
        ghost var m, heads, table := next, sizehead, pages;
        pages := pages + [Page(p, 1 + Pow2(i))];
        LinkBlocksLoop(p, i, Blocks(base, i - 3, i - 3));
        sizehead := sizehead[i := p];
        NextClass(base, i, m, table, heads);
      }
      h := InitialHeap(base);
      InitialMeans(base);
      InitialRefines(base, next, pages, sizehead);
    }

    /** Any run of calls in which only blocks held are given back, and holders write into their blocks:
        `held` are the blocks in use, each of them once, with the sizes asked for; every word written into
        a block still held reads as it was written last.  Pages are lost exactly if a request leaked. */
    method Run(calls: seq<Call>) returns (ok: bool, held: seq<nat>, sizes: seq<nat>, written: Words, ghost leaks: nat)
      requires Valid() && h.live == map[]
      modifies this
      ensures !ok ==> heapTop + PGSIZE > heapEnd
      ensures ok ==> Valid() && Holds(held, h.live) && Sized(held, sizes, h.live) && Kept(held, sizes, written, next)
      ensures ok ==> (leaks == 0 <==> LostPages(h) == LostPages(old(h)))
    {
      hide Represents; hide PA; hide Holds; hide Freed; hide Sized; hide Kept; hide Spares; hide LostPages; hide Inside;
      hide RequestLeaks;
      held, sizes, written, ok, leaks := [], [], map[], true, 0;
      HoldsNothing(h.live, next);
      for k := 0 to |calls|
        invariant ok && Valid() && Holds(held, h.live) && Sized(held, sizes, h.live) && Kept(held, sizes, written, next)
        invariant LostPages(old(h)) <= LostPages(h) && (leaks == 0 <==> LostPages(h) == LostPages(old(h)))
      {
        ghost var h0, next0 := h, next;
        match calls[k] {
          case Allocate(size) =>
            var ret;
            ok, ret := Malloc(size);
            if !ok {
              return;
            }
            StillKept(held, sizes, written, h0.live, next0, next);
            if RequestLeaks(h0, size) {
              leaks := leaks + 1;
            }
            if ret != 0 {
              HoldsMore(held, sizes, written, h0.live, next, ret, size, h.live[ret]);
              held, sizes := held + [ret], sizes + [size];
            }
          case Return(i) =>
            if i < |held| {
              HoldsLess(held, sizes, h.live, i);
              Free(held[i]);
              ghost var before := written;
              written := Without(written, held[i], sizes[i]);
              KeepsRest(held, sizes, before, written, h0.live, next0, next, i);
              held, sizes := RemoveRun(held, i, 1), RemoveRun(sizes, i, 1);
            }
          case Write(i, words) =>
            if i < |held| && |held| == |sizes| {
              var w := Within(words, held[i], sizes[i]);
              WritesInside(held, sizes, written, h.live, next, i, w);
              UserWrite(held[i], next + w);
              written := written + w;
            }
        }
      }
    }
  }

  /** A word that lies inside the part of a block that was asked for. */
  predicate Inside(x: nat, b: nat, size: nat)
  {
    b <= x && x + WORD <= b + size
  }

  function Within(words: Words, b: nat, size: nat): (w: Words)
    ensures forall x :: x in w <==> x in words && Inside(x, b, size)
  {
    map x | x in words && Inside(x, b, size) :: words[x]
  }

  function Without(words: Words, b: nat, size: nat): (w: Words)
    ensures forall x :: x in w <==> x in words && !Inside(x, b, size)
    ensures forall x :: x in w ==> w[x] == words[x]
  {
    map x | x in words && !Inside(x, b, size) :: words[x]
  }

  /** The blocks are as large as was asked for. */
  ghost predicate Sized(held: seq<nat>, sizes: seq<nat>, live: map<nat, nat>)
  {
    |sizes| == |held| && forall i :: 0 <= i < |held| ==> held[i] in live && sizes[i] <= live[held[i]]
  }

  /** What has been written into blocks held is still there. */
  ghost predicate Kept(held: seq<nat>, sizes: seq<nat>, written: Words, next: Words)
  {
    && |sizes| == |held|
    && (forall x :: x in written ==> x in next && next[x] == written[x])
    && forall x :: x in written ==> exists i :: 0 <= i < |held| && Inside(x, held[i], sizes[i])
  }

  lemma StillKept(held: seq<nat>, sizes: seq<nat>, written: Words, live: map<nat, nat>, next: Words, m: Words)
    requires Sized(held, sizes, live) && Kept(held, sizes, written, next) && Spares(live, next, m)
    ensures Kept(held, sizes, written, m)
  {
    forall x | x in written ensures x in m && m[x] == written[x] {
      var i :| 0 <= i < |held| && Inside(x, held[i], sizes[i]);
      assert Overlap(x, WORD, held[i], live[held[i]]);
    }
  }

  lemma WritesInside(held: seq<nat>, sizes: seq<nat>, written: Words, live: map<nat, nat>, next: Words, i: nat,
            w: Words)
    requires Sized(held, sizes, live) && Kept(held, sizes, written, next) && i < |held|
    requires forall x :: x in w ==> Inside(x, held[i], sizes[i])
    ensures Kept(held, sizes, written + w, next + w) && held[i] in live
    ensures forall x :: x in next && !Overlap(x, WORD, held[i], live[held[i]]) ==>
      x in next + w && (next + w)[x] == next[x]
  {
    forall x | x in written + w ensures exists j :: 0 <= j < |held| && Inside(x, held[j], sizes[j]) {
      if x in w { assert Inside(x, held[i], sizes[i]); }
    }
  }

  /** `held` lists the live blocks, each of them once. */
  ghost predicate Holds(held: seq<nat>, live: map<nat, nat>)
  {
    && (forall i, j :: 0 <= i < j < |held| ==> held[i] != held[j])
    && forall b :: b in live <==> b in held
  }

  lemma HoldsNothing(live: map<nat, nat>, next: Words)
    requires live == map[]
    ensures Holds([], live) && Sized([], [], live) && Kept([], [], map[], next)
  {
  }

  lemma HoldsMore(held: seq<nat>, sizes: seq<nat>, written: Words, live: map<nat, nat>, next: Words, b: nat,
            size: nat, n: nat)
    requires Holds(held, live) && Sized(held, sizes, live) && Kept(held, sizes, written, next) && b !in live &&
      size <= n
    ensures Holds(held + [b], live[b := n]) && Sized(held + [b], sizes + [size], live[b := n])
    ensures Kept(held + [b], sizes + [size], written, next)
  {
    var held', sizes' := held + [b], sizes + [size];
    forall x | x in written ensures exists i :: 0 <= i < |held'| && Inside(x, held'[i], sizes'[i]) {
      var i :| 0 <= i < |held| && Inside(x, held[i], sizes[i]);
      assert Inside(x, held'[i], sizes'[i]);
    }
  }

  lemma HoldsLess(held: seq<nat>, sizes: seq<nat>, live: map<nat, nat>, i: nat)
    requires Holds(held, live) && Sized(held, sizes, live) && i < |held|
    ensures held[i] in live && Holds(RemoveRun(held, i, 1), live - {held[i]}) && i < |sizes|
    ensures Sized(RemoveRun(held, i, 1), RemoveRun(sizes, i, 1), live - {held[i]})
  {
    OneLess(held, i);
    OneLess(sizes, i);
    hide RemoveRun;
    var rest := RemoveRun(held, i, 1);
    forall b | b in live - {held[i]} ensures b in rest {
      var j :| 0 <= j < |held| && held[j] == b;
      assert rest[if j < i then j else j - 1] == b;
    }
  }

  lemma OneLess(xs: seq<nat>, i: nat)
    requires i < |xs|
    ensures |RemoveRun(xs, i, 1)| == |xs| - 1
    ensures forall j :: 0 <= j < |xs| - 1 ==> RemoveRun(xs, i, 1)[j] == xs[if j < i then j else j + 1]
  {
  }

  lemma HeldApart(held: seq<nat>, live: map<nat, nat>, i: nat, j: nat)
    requires Holds(held, live) && i < |held| && j < |held|
    ensures i != j ==> held[i] != held[j]
  {
  }

  lemma InsideMeets(x: nat, b: nat, size: nat, n: nat)
    requires Inside(x, b, size) && size <= n
    ensures Overlap(x, WORD, b, n)
  {
  }

  lemma NotFree(live: map<nat, nat>, x: nat, b: nat)
    requires b in live && Overlap(x, WORD, b, live[b])
    ensures !NoBlock(live, x)
  {
  }

  /** Freeing a block leaves the words of the others. */
  lemma KeepsRest(held: seq<nat>, sizes: seq<nat>, written: Words, rest: Words, live: map<nat, nat>, next: Words,
            m: Words, i: nat)
    requires Sized(held, sizes, live) && i < |held| && Spares(live - {held[i]}, next, m)
    requires Holds(held, live) && Kept(held, sizes, written, next)
    requires rest == Without(written, held[i], sizes[i])
    ensures Kept(RemoveRun(held, i, 1), RemoveRun(sizes, i, 1), rest, m)
  {
    OneLess(held, i);
    OneLess(sizes, i);
    hide RemoveRun; hide NoBlock; hide Overlap; hide Inside; hide Holds; hide Spares; hide Sized;
    var held', sizes' := RemoveRun(held, i, 1), RemoveRun(sizes, i, 1);
    forall x | x in rest
      ensures x in m && m[x] == rest[x] && exists j :: 0 <= j < |held'| && Inside(x, held'[j], sizes'[j])
    {
      var j := KeepsWord(held, sizes, written, live, next, m, i, x);
      var k := if j < i then j else j - 1;
      assert Inside(x, held'[k], sizes'[k]);
    }
  }

  /** A word of another block held. */
  lemma KeepsWord(held: seq<nat>, sizes: seq<nat>, written: Words, live: map<nat, nat>, next: Words, m: Words, i: nat,
            x: nat) returns (j: nat)
    requires Sized(held, sizes, live) && i < |held| && Spares(live - {held[i]}, next, m)
    requires Holds(held, live) && Kept(held, sizes, written, next) && x in written && !Inside(x, held[i], sizes[i])
    ensures j < |held| && j != i && |sizes| == |held| && Inside(x, held[j], sizes[j])
    ensures x in m && m[x] == written[x]
  {
    hide NoBlock; hide Overlap; hide Inside; hide Holds;
    j :| 0 <= j < |held| && Inside(x, held[j], sizes[j]);
    HeldApart(held, live, i, j);
    InsideMeets(x, held[j], sizes[j], live[held[j]]);
    NotFree(live - {held[i]}, x, held[j]);
  }

  /** How many pages bigfind is asked for. */
  function PagesFor(size: nat): nat
  {
    (size + PGSIZE - 1) / PGSIZE
  }

  /** The request goes to bigfind and makes it leak. */
  ghost predicate RequestLeaks(h: Heap, size: nat)
  {
    PGSIZE < size <= MAXREQUEST && Leaks(h, PagesFor(size))
  }

  lemma BigRequest(size: nat, pos: nat)
    requires pos >= 3 && size <= Pow2(pos) && (pos > 3 ==> Pow2(pos - 1) < size)
    ensures size > PGSIZE <==> pos > 12
  {
    PowersToPage();
    if pos < 12 { Pow2Monotone(pos, 12); }
    if pos > 12 { Pow2Monotone(12, pos - 1); }
  }

  /** A call of the memory manager, or a write of its user: `Return(i)` gives back the `i`-th block held,
      `Write(i, words)` stores those of the words that lie inside it. */
  datatype Call = Allocate(size: nat) | Return(i: nat) | Write(i: nat, words: Words)

  const MAXREQUEST: nat := 0x1000000
}
