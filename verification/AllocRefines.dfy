/** Each step of the allocator carried out on memory: the stores that perform it keep memory and
    ownership in step. */
module AllocRefines {
  import opened Common
  import opened AllocHeap
  import opened AllocSteps
  import opened AllocLinks

  lemma LostNotListed(h: Heap, f: nat)
    requires Ok(h) && AllLost(h, f, 1)
    ensures PA(h.base, f) !in Addrs(h.base, h.free)
  {
    forall i | 0 <= i < |h.free| ensures PA(h.base, h.free[i]) != PA(h.base, f) { assert h.owner[h.free[i]] == Free; }
  }

  lemma ClassStart(h: Heap, next: Words, pages: seq<Page>, pagehead: nat, sizehead: seq<nat>, c: nat, b: nat)
    requires Represents(h, next, pages, pagehead, sizehead) && c < CLASSES && b in h.live && InClass(h, b, c)
    ensures |h.cls| == CLASSES && Push(h, c, b).base == h.base && |Push(h, c, b).owner| == |h.owner|
    ensures var xs := h.cls[c];
      && |sizehead| == 32 && Chain(next, xs) && Increasing(xs) && xs != [] && sizehead[c + 3] == xs[0] &&
        (forall i :: 0 <= i < |xs| ==> xs[i] > 0)
      && Rank(xs, b) >= 1 && b !in xs
  {
    PushOk(h, c, b);
    assert ClassOk(h, c) && BlockOk(h, b, c);
    forall i | 0 <= i < |h.cls[c]| ensures h.cls[c][i] > 0 { assert InClass(h, h.cls[c][i], c); }
  }

  /** Linking a block back into its class keeps memory and ownership in step. */
  lemma PushRefines(h: Heap, m: Words, next: Words, pages: seq<Page>, pagehead: nat, sizehead: seq<nat>, c: nat, b: nat)
    requires Represents(h, m, pages, pagehead, sizehead)
    requires c < CLASSES && b in h.live && InClass(h, b, c) && Spliced(m, h.cls[c], [b], next)
    ensures var g := Push(h, c, b);
      Represents(g, next, pages, pagehead, sizehead)
  {
    hide Ok; hide Chain; hide Rank; hide Increasing; hide PageOf; hide Offset; hide PagesOk; hide OwnerAt;
    hide InClass; hide PA; hide Push;
    PushFacts(h, m, next, pages, pagehead, sizehead, c, b);
    FreeElsewhere(h, m, pagehead, next);
    OtherClasses(h, Push(h, c, b), m, next, sizehead, c);
  }

  lemma PushFacts(h: Heap, m: Words, next: Words, pages: seq<Page>, pagehead: nat, sizehead: seq<nat>, c: nat, b: nat)
    requires Represents(h, m, pages, pagehead, sizehead)
    requires c < CLASSES && b in h.live && InClass(h, b, c) && Spliced(m, h.cls[c], [b], next)
    ensures var g, xs := Push(h, c, b), h.cls[c];
      && Ok(g) && PagesOk(g, pages) && |h.cls| == CLASSES && g.base == h.base && g.free == h.free
      && g.cls == h.cls[c := g.cls[c]] && g.cls[c] != [] && g.cls[c][0] == xs[0] && Chain(next, g.cls[c])
      && Rank(xs, b) >= 1 && OwnerAt(h, xs[Rank(xs, b) - 1]) == OwnerAt(h, b) == Small(c)
  {
    hide Chain; hide Spliced; hide BlockSize;
    ClassStart(h, m, pages, pagehead, sizehead, c, b);
    PushOk(h, c, b);
    ChainLink(m, h.cls[c], [b], next);
    ListOwners(h);
    assert Push(h, c, b).cls[c] == InsertRun(h.cls[c], [b]);
  }

  lemma ListStart(h: Heap, next: Words, pagehead: nat, f: nat)
    requires Ok(h) && FreeLinked(h, next, pagehead)
    ensures var xs, bp := Addrs(h.base, h.free), PA(h.base, f);
      && Chain(next, xs) && pagehead == AtOrNull(xs, 0) && (forall i :: 0 <= i < |xs| ==> xs[i] > 0)
      && Rank(xs, bp) == Rank(h.free, f)
      && (pagehead == 0 ==> xs == []) && (pagehead != 0 ==> (pagehead < bp <==> Rank(xs, bp) > 0))
      && (xs == [] ==> Rank(xs, bp) == 0)
  {
    AddrsOrder(h.base, h.free, f);
  }

  /** Linking a chained run of lost pages in keeps memory and ownership in step. */
  lemma PutFreeRefines(h: Heap, m: Words, oldhead: nat, next: Words, pages: seq<Page>, sizehead: seq<nat>, f: nat,
            n: nat)
    requires Represents(h, m, pages, oldhead, sizehead) && AllLost(h, f, n)
    requires |PageRun(h.base, f, n)| > 0 && Spliced(m, Addrs(h.base, h.free), PageRun(h.base, f, n), next)
    requires RunLinked(m, PageRun(h.base, f, n))
    ensures var g := PutFree(h, f, n);
      && Represents(g, next, pages, if Rank(h.free, f) == 0 then PA(h.base, f) else oldhead, sizehead)
      && g.base == h.base && |g.owner| == |h.owner|
  {
    PutFreeLinked(h, m, oldhead, f, n, next);
    hide FreeLinked;
    PutFreeOthers(h, m, next, pages, sizehead, f, n);
  }

  /** What the proof that the run's stores concern no class list needs. */
  lemma PutFreeFacts(h: Heap, pages: seq<Page>, f: nat, n: nat)
    requires Ok(h) && PagesOk(h, pages) && AllLost(h, f, n)
    ensures var g, xs, run := PutFree(h, f, n), Addrs(h.base, h.free), PageRun(h.base, f, n);
      && Ok(g) && PagesOk(g, pages) && g.cls == h.cls && |h.cls| == CLASSES && g.base == h.base &&
        |g.owner| == |h.owner|
      && |run| == n && OwnerAt(h, run[n - 1]) == Lost && forall i :: 0 <= i < |xs| ==> OwnerAt(h, xs[i]) == Free
  {
    PutFreeOk(h, f, n);
    PageRunFacts(h.base, f, n);
    ListOwners(h);
  }

  /** The stores that link the run change neither classes nor page information. */
  lemma PutFreeOthers(h: Heap, m: Words, next: Words, pages: seq<Page>, sizehead: seq<nat>, f: nat, n: nat)
    requires Ok(h) && PagesOk(h, pages) && |h.cls| == CLASSES && ClassesLinked(h, m, sizehead) && AllLost(h, f, n)
    requires |PageRun(h.base, f, n)| > 0 && Spliced(m, Addrs(h.base, h.free), PageRun(h.base, f, n), next)
    requires n > 0 && f + n <= |h.owner|
    ensures var g := PutFree(h, f, n);
      && Ok(g) && PagesOk(g, pages) && |g.cls| == CLASSES && ClassesLinked(g, next, sizehead)
      && g.base == h.base && |g.owner| == |h.owner|
  {
    hide Ok; hide PagesOk; hide AllLost; hide OwnerAt; hide PA; hide PageOf; hide PageRun; hide Rank; hide PutFree;
    hide Addrs;
    PutFreeFacts(h, pages, f, n);
    ClassesElsewhere(h, m, sizehead, next);
  }

  function BlocksIn(pos: nat): nat
    requires 3 <= pos < 12
  {
    BlocksPerPage(pos - 3);
    PGSIZE / Pow2(pos)
  }

  lemma BlocksInCount(base: nat, k: nat, pos: nat)
    requires 3 <= pos < 12
    ensures BlocksIn(pos) == |Blocks(base, k, pos - 3)| >= 2
    ensures forall j :: 0 <= j < BlocksIn(pos) ==> Blocks(base, k, pos - 3)[j] == NBP(PA(base, k), pos, j)
  {
    BlocksPerPage(pos - 3);
  }

  lemma FirstBlock(base: nat, k: nat, c: nat)
    requires c < CLASSES
    ensures |Blocks(base, k, c)| >= 2 && Blocks(base, k, c)[0] == PA(base, k)
  {
    BlocksPerPage(c);
  }

  lemma ClassHead(h: Heap, next: Words, sizehead: seq<nat>, c: nat)
    requires Ok(h) && ClassesLinked(h, next, sizehead) && c < CLASSES
    ensures |h.cls[c]| >= 1 && sizehead[c + 3] == h.cls[c][0] && h.cls[c][0] in next
    ensures next[h.cls[c][0]] == AtOrNull(h.cls[c], 1) && (next[h.cls[c][0]] == 0 <==> |h.cls[c]| == 1)
  {
    assert ClassOk(h, c);
    if |h.cls[c]| >= 2 { assert InClass(h, h.cls[c][1], c); }
  }

  /** Hanging a freshly cut page behind the head of its class. */
  lemma CutPageRefines(h: Heap, next: Words, pages: seq<Page>, pagehead: nat, sizehead: seq<nat>, c: nat, k: nat,
            bs: seq<nat>)
    requires Represents(h, next, pages, pagehead, sizehead)
    requires c < CLASSES && k < |h.owner| && h.owner[k] == Lost && |h.cls[c]| == 1 && pages[k].word == 1 + Pow2(c + 3)
    requires PageBlocks(h.base, k, c, bs) && Chain(next, bs)
    ensures MayCut(h, c, k, bs)
    ensures var g, m := CutPage(h, c, k, bs), next[h.cls[c][0] := bs[0]];
      Represents(g, m, pages, pagehead, sizehead) && |g.cls[c]| >= 2
  {
    hide Ok; hide PagesOk; hide PageBlocks; hide MayCut; hide CutPage; hide OwnerAt; hide Chain; hide Pow2;
    CutPageFacts(h, next, pages, c, k, bs);
    var m := next[h.cls[c][0] := bs[0]];
    FreeElsewhere(h, next, pagehead, m);
    OtherClasses(h, CutPage(h, c, k, bs), next, m, sizehead, c);
  }

  lemma CutPageFacts(h: Heap, next: Words, pages: seq<Page>, c: nat, k: nat, bs: seq<nat>)
    requires Ok(h) && PagesOk(h, pages) && c < CLASSES && Chain(next, h.cls[c])
    requires k < |h.owner| && h.owner[k] == Lost && |h.cls[c]| == 1 && pages[k].word == 1 + Pow2(c + 3)
    requires PageBlocks(h.base, k, c, bs) && Chain(next, bs)
    ensures var g, a := CutPage(h, c, k, bs), h.cls[c][0];
      && MayCut(h, c, k, bs) && Ok(g) && PagesOk(g, pages) && |h.cls| == CLASSES && bs != []
      && g.base == h.base && g.free == h.free && g.cls == h.cls[c := [a] + bs] && OwnerAt(h, a) == Small(c)
      && Chain(next[a := bs[0]], g.cls[c])
  {
    hide Pow2; hide BlockSize; hide PA; hide PageOf; hide Offset;
    LostPageAbove(h, c, k);
    CutPageOk(h, c, k, bs);
    ListOwners(h);
    HeadThenBlocks(h, next, c, k, bs);
    assert h.cls[c] == [h.cls[c][0]];
  }

  lemma LostPageAbove(h: Heap, c: nat, k: nat)
    requires Ok(h) && c < CLASSES && k < |h.owner| && h.owner[k] == Lost
    ensures k > c && |h.cls[c]| >= 1 && InClass(h, h.cls[c][0], c) && h.cls[c][0] == PA(h.base, c)
  {
    assert ClassOk(h, c) && ClassOk(h, k % CLASSES);
  }

  lemma HeadThenBlocks(h: Heap, next: Words, c: nat, k: nat, bs: seq<nat>)
    requires MayCut(h, c, k, bs) && Chain(next, bs) && Chain(next, h.cls[c])
    ensures Chain(next[h.cls[c][0] := bs[0]], [h.cls[c][0]] + bs)
  {
    var a := h.cls[c][0];
    LostPageAbove(h, c, k);
    PageArith(h.base, c, 0);
    assert forall i :: 0 <= i < |bs| ==> bs[i] != a;
  }

  lemma PopRefines(h: Heap, next: Words, pages: seq<Page>, pagehead: nat, sizehead: seq<nat>, c: nat)
    requires Represents(h, next, pages, pagehead, sizehead)
    requires c < CLASSES && |h.cls[c]| >= 2
    ensures h.cls[c][1] in next && next[h.cls[c][1]] == AtOrNull(h.cls[c], 2)
    ensures var g, m := Pop(h, c), next[h.cls[c][0] := next[h.cls[c][1]]];
      Represents(g, m, pages, pagehead, sizehead)
  {
    hide Ok; hide OwnerAt; hide SameIn; hide PagesOk; hide FreeLinked; hide Increasing; hide PA;
    PopOk(h, c);
    ListFacts(h, c);
    ChainUnlink(next, h.cls[c], 1, 1);
    var g, a, v := Pop(h, c), h.cls[c][0], next[h.cls[c][1]];
    OneStore(h, next, a, v, next[a := v]);
    FreeElsewhere(h, next, pagehead, next[a := v]);
    SamePages(h, g, pages, next[a := v], pagehead);
    OtherClasses(h, g, next, next[a := v], sizehead, c);
  }

  lemma ListFacts(h: Heap, c: nat)
    requires Ok(h) && c < CLASSES
    ensures |h.cls| == CLASSES && Increasing(h.cls[c]) && h.cls[c] != []
    ensures forall i :: 0 <= i < |h.cls[c]| ==> OwnerAt(h, h.cls[c][i]) == Small(c)
  {
    assert ClassOk(h, c);
    ListOwners(h);
  }

  /** A store changes the words in the pages of one owner only. */
  lemma OneStore(h: Heap, next: Words, a: nat, v: nat, m: Words)
    requires m == next[a := v]
    ensures forall o :: o != OwnerAt(h, a) ==> SameIn(h, o, next, m)
  {
  }

  lemma SamePages(h: Heap, g: Heap, pages: seq<Page>, m: Words, pagehead: nat)
    requires g.base == h.base && g.owner == h.owner && g.free == h.free
    ensures PagesOk(h, pages) ==> PagesOk(g, pages)
    ensures FreeLinked(h, m, pagehead) ==> FreeLinked(g, m, pagehead)
  {
  }

  /** Stores into pages of class `c`, with a new list for that class. */
  lemma OtherClasses(h: Heap, g: Heap, next: Words, m: Words, sizehead: seq<nat>, c: nat)
    requires Ok(h) && ClassesLinked(h, next, sizehead) && c < CLASSES
    requires forall d :: 0 <= d < CLASSES && d != c ==> SameIn(h, Small(d), next, m)
    requires |g.cls| == CLASSES && g.cls == h.cls[c := g.cls[c]] && Chain(m, g.cls[c])
    requires g.cls[c] != [] && g.cls[c][0] == h.cls[c][0]
    ensures ClassesLinked(g, m, sizehead)
  {
    assert |h.cls| == CLASSES;
    hide SameIn; hide Chain; hide Ok;
    forall d | 0 <= d < CLASSES ensures Chain(m, g.cls[d]) {
      if d != c { ClassElsewhere(h, next, d, m); }
    }
  }

  lemma HeadOfFree(h: Heap, next: Words, pagehead: nat)
    requires Ok(h) && FreeLinked(h, next, pagehead)
    ensures pagehead == 0 <==> h.free == []
  {
  }

  /** What the insertion of a run of lost pages starts from. */
  lemma RunStart(h: Heap, next: Words, pages: seq<Page>, pagehead: nat, sizehead: seq<nat>, f: nat, n: nat)
    requires Represents(h, next, pages, pagehead, sizehead) && AllLost(h, f, n)
    ensures n > 0 && f + n <= |h.owner|
    ensures var xs, bp := Addrs(h.base, h.free), PA(h.base, f);
      && Chain(next, xs) && pagehead == AtOrNull(xs, 0) && (forall i :: 0 <= i < |xs| ==> xs[i] > 0)
      && Rank(xs, bp) == Rank(h.free, f)
    ensures var run := PageRun(h.base, f, n);
      && |run| == n && run[0] == PA(h.base, f) && run[n - 1] == PA(h.base, f + n - 1)
  {
    ListStart(h, next, pagehead, f);
    PageRunFacts(h.base, f, n);
  }

  lemma SinglePage(h: Heap, next: Words, pages: seq<Page>, pagehead: nat, sizehead: seq<nat>, f: nat)
    requires Represents(h, next, pages, pagehead, sizehead) && AllLost(h, f, 1)
    ensures PageRun(h.base, f, 1) == [PA(h.base, f)] && RunLinked(next, PageRun(h.base, f, 1))
    ensures PA(h.base, f) !in Addrs(h.base, h.free)
  {
    PageRunFacts(h.base, f, 1);
    LostNotListed(h, f);
  }

  /** Popping the first free page: the stores that do it keep memory and ownership in step. */
  lemma TakeFirstRefines(h: Heap, next: Words, pages: seq<Page>, pagehead: nat, sizehead: seq<nat>, word: nat)
    requires Represents(h, next, pages, pagehead, sizehead) && h.free != []
    ensures h.free[0] < |pages| && |pages| == |h.owner| && pages[0].start == h.base
    ensures pagehead == PA(h.base, h.free[0]) && pagehead in next
    ensures var h', k := TakeFree(h, 0, 1), h.free[0];
      && Ok(h') && PagesOk(h', pages[k := Page(PA(h.base, k), word)])
      && FreeLinked(h', next, next[pagehead]) && ClassesLinked(h', next, sizehead)
      && h'.owner[k] == Lost
  {
    hide Ok; hide ClassesLinked; hide FreeLinked; hide PagesOk; hide PA;
    TakeFreeOk(h, 0, 1);
    TakeFirstLinked(h, next, pagehead);
    SameClasses(h, next, sizehead, 0, 1);
    TakenPageOk(h, pages, word);
  }

  lemma TakeFirstLinked(h: Heap, next: Words, pagehead: nat)
    requires Ok(h) && FreeLinked(h, next, pagehead) && h.free != []
    ensures pagehead == PA(h.base, h.free[0]) && pagehead in next
    ensures FreeLinked(TakeFree(h, 0, 1), next, next[pagehead])
  {
    var xs := Addrs(h.base, h.free);
    AddrsIncreasing(h.base, h.free);
    hide Ok; hide PA;
    ChainUnlink(next, xs, 0, 1);
    AddrsRemove(h.base, h.free, 0, 1);
    assert next[xs[0]] == AtOrNull(xs, 1);
  }

  lemma SameClasses(h: Heap, next: Words, sizehead: seq<nat>, i: nat, n: nat)
    requires Ok(h) && i + n <= |h.free|
    ensures |h.cls| == CLASSES == |TakeFree(h, i, n).cls|
    ensures ClassesLinked(h, next, sizehead) ==> ClassesLinked(TakeFree(h, i, n), next, sizehead)
  {
  }

  /** The information word of a lost page may be anything. */
  lemma TakenPageOk(h: Heap, pages: seq<Page>, word: nat)
    requires Ok(h) && PagesOk(h, pages) && h.free != []
    ensures h.free[0] < |pages| && |pages| == |h.owner| && pages[0].start == h.base
    ensures var k := h.free[0]; PagesOk(TakeFree(h, 0, 1), pages[k := Page(PA(h.base, k), word)])
  {
    TakeFreeOk(h, 0, 1);
    TakenPagesOk(h, pages, 0, 1);
  }

  lemma TakenPagesOk(h: Heap, pages: seq<Page>, i: nat, n: nat)
    requires PagesOk(h, pages) && i + n <= |h.free|
    ensures PagesOk(TakeFree(h, i, n), pages)
  {
  }

  lemma AddrsRemove(base: nat, fs: seq<nat>, i: nat, n: nat)
    requires i + n <= |fs|
    ensures Addrs(base, RemoveRun(fs, i, n)) == RemoveRun(Addrs(base, fs), i, n)
  {
  }

  /** A page in nobody's hands may carry any information word. */
  lemma SetInfoRefines(h: Heap, next: Words, pages: seq<Page>, pagehead: nat, sizehead: seq<nat>, k: nat, word: nat)
    requires Represents(h, next, pages, pagehead, sizehead)
    requires k < |h.owner| && (h.owner[k] == Free || h.owner[k] == Lost)
    ensures |pages| == |h.owner| && pages[0].start == h.base
    ensures Represents(h, next, pages[k := Page(PA(h.base, k), word)], pagehead, sizehead)
  {
  }

  lemma UnclaimRefines(h: Heap, next: Words, pages: seq<Page>, pagehead: nat, sizehead: seq<nat>, f: nat, n: nat)
    requires Represents(h, next, pages, pagehead, sizehead) && WholeAt(h, f, n)
    ensures Represents(Unclaim(h, f, n), next, pages, pagehead, sizehead) && AllLost(Unclaim(h, f, n), f, n)
    ensures Unclaim(h, f, n).base == h.base && |Unclaim(h, f, n).owner| == |h.owner|
  {
    UnclaimOk(h, f, n);
    hide Ok; hide Chain;
  }

  lemma ClaimRefines(h: Heap, next: Words, pages: seq<Page>, pagehead: nat, sizehead: seq<nat>, f: nat, n: nat)
    requires Represents(h, next, pages, pagehead, sizehead) && AllLost(h, f, n) && n <= MAXRUN && f < |pages|
    requires pages[f].word == if n == 1 then 1 + PGSIZE else BIGBIT + n
    ensures Represents(Claim(h, f, n), next, pages, pagehead, sizehead) && PA(h.base, f) !in h.live
    ensures Claim(h, f, n).base == h.base && |Claim(h, f, n).owner| == |h.owner|
  {
    ClaimOk(h, f, n);
    hide Ok; hide Chain;
  }

  /** The store that takes entries `i` to `i + n - 1` out of the page list. */
  lemma TakeRunRefines(h: Heap, next: Words, pages: seq<Page>, pagehead: nat, sizehead: seq<nat>, i: nat, n: nat)
    requires Represents(h, next, pages, pagehead, sizehead) && i + n <= |h.free|
    ensures var xs, g := Addrs(h.base, h.free), TakeFree(h, i, n);
      && (i == 0 ==> Represents(g, next, pages, AtOrNull(xs, n), sizehead))
      && (i > 0 ==> Represents(g, next[xs[i - 1] := AtOrNull(xs, i + n)], pages, pagehead, sizehead))
      && g.base == h.base && |g.owner| == |h.owner|
  {
    hide Ok; hide OwnerAt; hide Chain; hide PA; hide TakeFree;
    TakeRunFacts(h, next, pages, pagehead, i, n);
    if i > 0 {
      ClassesElsewhere(h, next, sizehead, next[Addrs(h.base, h.free)[i - 1] := AtOrNull(Addrs(h.base, h.free), i + n)]);
    }
  }

  lemma TakeRunFacts(h: Heap, next: Words, pages: seq<Page>, pagehead: nat, i: nat, n: nat)
    requires Ok(h) && PagesOk(h, pages) && FreeLinked(h, next, pagehead) && i + n <= |h.free|
    ensures var xs, g := Addrs(h.base, h.free), TakeFree(h, i, n);
      && Ok(g) && PagesOk(g, pages) && g.base == h.base && |g.owner| == |h.owner| && g.cls == h.cls &&
        |h.cls| == CLASSES
      && Addrs(g.base, g.free) == RemoveRun(xs, i, n)
      && (i == 0 ==> Chain(next, RemoveRun(xs, i, n)))
      && (i > 0 ==> Chain(next[xs[i - 1] := AtOrNull(xs, i + n)], RemoveRun(xs, i, n)) && OwnerAt(h, xs[i - 1]) == Free)
  {
    hide Chain; hide PA; hide OwnerAt;
    TakeFreeOk(h, i, n);
    AddrsIncreasing(h.base, h.free);
    ChainUnlink(next, Addrs(h.base, h.free), i, n);
    AddrsRemove(h.base, h.free, i, n);
    TakenPagesOk(h, pages, i, n);
    ListOwners(h);
  }

  lemma ClassHeads(h: Heap)
    requires Ok(h)
    ensures |h.cls| == CLASSES
  {
  }

  /** What the information word of a live block's page says. */
  lemma LiveWord(h: Heap, next: Words, pages: seq<Page>, pagehead: nat, sizehead: seq<nat>, b: nat)
    requires Represents(h, next, pages, pagehead, sizehead) && b in h.live
    ensures b >= h.base && PageOf(h.base, b) < |h.owner| == |pages| && |h.cls| == CLASSES && pages[0].start == h.base
    ensures var k, o := PageOf(h.base, b), h.owner[PageOf(h.base, b)];
      && (o.Small? ==>
        o.c < CLASSES && InClass(h, b, o.c) && pages[k].word == 1 + Pow2(o.c + 3) <= 1 + 2048 &&
        pages[k].word % 2 == 1)
      && (o.Whole? ==> b == PA(h.base, k) && o.first == k && WholeAt(h, k, o.count))
      && (o.Whole? ==> pages[k].word == if o.count == 1 then 1 + PGSIZE else BIGBIT + o.count)
      && (o.Whole? ==> 0 < o.count <= MAXRUN && Freed(h, b) == Release(h, k, o.count))
      && (o.Small? ==> Freed(h, b) == Push(h, o.c, b))
      && (o.Small? || o.Whole?)
  {
    hide Ok; hide FreeLinked; hide ClassesLinked; hide InClass; hide PageOf; hide Offset;
    LiveExtent(h, b);
    ClassHeads(h);
    var k, o := PageOf(h.base, b), h.owner[PageOf(h.base, b)];
    assert WordOk(o, k, pages[k].word);
    if o.Small? {
      BlocksPerPage(o.c);
    } else {
      PageArith(h.base, o.first, 0);
    }
  }

  /** The least exponent whose power reaches a power of two is its own exponent. */
  lemma LeastPower(pos: nat, x: nat)
    requires x <= Pow2(pos) && (pos > 0 ==> Pow2(pos - 1) < x)
    ensures forall e :: 0 <= e && x == Pow2(e) ==> e == pos
    ensures x == PGSIZE ==> pos == 12
  {
    assert Pow2(12) == PGSIZE by {
      assert Pow2(4) == 16 && Pow2(8) == 256;
    }
    forall e | 0 <= e && x == Pow2(e) ensures e == pos {
      if e > pos {
        Pow2Monotone(pos + 1, e);
      } else if e < pos {
        Pow2Monotone(e, pos - 1);
      }
    }
  }

  // ---------------------------------------------------------------------------------------
  // The branches of the page search

  lemma PageTable(h: Heap, next: Words, pages: seq<Page>, pagehead: nat, sizehead: seq<nat>)
    requires Represents(h, next, pages, pagehead, sizehead)
    ensures |pages| == |h.owner| > 0 && pages[0].start == h.base
  {
    assert ClassOk(h, 0);
  }

  lemma NewPagesTwice(h: Heap, m: nat, n: nat)
    ensures NewPages(NewPages(h, m), n) == NewPages(h, m + n)
  {
    assert NewPages(NewPages(h, m), n).owner == NewPages(h, m + n).owner;
  }

  lemma SearchStart(h: Heap, next: Words, pages: seq<Page>, pagehead: nat, sizehead: seq<nat>)
    requires Represents(h, next, pages, pagehead, sizehead) && h.free != []
    ensures Chain(next, Addrs(h.base, h.free)) && pagehead == PA(h.base, h.free[0])
    ensures forall i :: 0 <= i < |h.free| ==> PA(h.base, h.free[i]) > 0
  {
  }

  /** What bigfind reads when it unlinks entries `s` to `s + n - 1`. */
  lemma FoundRun(h: Heap, next: Words, pages: seq<Page>, pagehead: nat, sizehead: seq<nat>, s: nat, n: nat)
    requires Represents(h, next, pages, pagehead, sizehead) && n > 0 && IsRun(h.free, s, n)
    ensures s + n <= |h.free| && pagehead == AtOrNull(Addrs(h.base, h.free), 0)
    ensures var xs, p := Addrs(h.base, h.free), PA(h.base, h.free[s + n - 1]);
      && p in next && next[p] == AtOrNull(xs, s + n) && (s > 0 ==> xs[s - 1] == PA(h.base, h.free[s - 1]))
    ensures pagehead == PA(h.base, h.free[s]) <==> s == 0
    ensures AllLost(TakeFree(h, s, n), h.free[s], n)
  {
    TakenRunIsLost(h, s, n);
    var xs := Addrs(h.base, h.free);
    ChainAt(next, xs, s + n - 1);
    hide Chain;
    assert s > 0 ==> h.free[0] < h.free[s];
  }

  lemma TailRun(h: Heap, next: Words, pages: seq<Page>, pagehead: nat, sizehead: seq<nat>, s: nat, count: nat)
    requires Represents(h, next, pages, pagehead, sizehead) && count > 0 && s + count == |h.free|
    ensures var xs := Addrs(h.base, h.free);
      AtOrNull(xs, s + count) == 0 && AtOrNull(xs, count) == (if s == 0 then 0 else AtOrNull(xs, count)) &&
        (s > 0 ==> xs[s - 1] == PA(h.base, h.free[s - 1]) > 0)
    ensures pagehead == PA(h.base, h.free[s]) <==> s == 0
  {
    hide Chain;
    assert s > 0 ==> h.free[0] < h.free[s];
  }

  lemma TailExtended(h: Heap, next: Words, pages: seq<Page>, pagehead: nat, sizehead: seq<nat>, s: nat, n: nat)
    requires Represents(h, next, pages, pagehead, sizehead)
    requires TailStart(h.free, s) && |h.free| < s + n && h.free[|h.free| - 1] == |h.owner| - 1
    ensures var count := |h.free| - s;
      var g := NewPages(h, n - count);
      && g.base == h.base && g.free == h.free && AllLost(TakeFree(g, s, count), h.free[s], n)
  {
    hide Ok; hide PagesOk; hide FreeLinked; hide ClassesLinked; hide RemoveRun; hide TakeFree;
    var count := |h.free| - s;
    var g := NewPages(h, n - count);
    NewPagesOk(h, n - count);
    TakenRunIsLost(g, s, count);
    assert h.free[s + (count - 1)] == h.free[s] + (count - 1);
    LostStays(g, s, count);
  }

  lemma LostStays(g: Heap, s: nat, count: nat)
    requires Ok(g) && s + count <= |g.free|
    ensures |TakeFree(g, s, count).owner| == |g.owner|
    ensures forall k :: 0 <= k < |g.owner| && g.owner[k] == Lost ==> TakeFree(g, s, count).owner[k] == Lost
  {
  }

  lemma TailCut(h: Heap, next: Words, pages: seq<Page>, pagehead: nat, sizehead: seq<nat>, s: nat, n: nat)
    requires Represents(h, next, pages, pagehead, sizehead) && TailStart(h.free, s) && n > 0
    ensures var g := NewPages(h, n + 1);
      && g.base == h.base && g.free == h.free
      && AllLost(g, |h.owner|, n) && AllLost(TakeFree(g, s, |h.free| - s), |h.owner|, n)
  {
    hide Chain; hide Ok;
  }

  // ---------------------------------------------------------------------------------------
  // Requests

  lemma PowersToPage()
    ensures Pow2(3) == 8 && Pow2(11) == 2048 && Pow2(12) == PGSIZE
  {
    assert Pow2(4) == 16 && Pow2(8) == 256;
  }

  lemma SourceKeepsLive(h: Heap)
    ensures var (g, k) := PageSource(h); g.live == h.live && g.base == h.base && g.cls == h.cls
  {
  }

  lemma StockedKeepsLive(h: Heap, next: Words, pages: seq<Page>, pagehead: nat, sizehead: seq<nat>, c: nat)
    requires Represents(h, next, pages, pagehead, sizehead) && c < CLASSES
    ensures |h.cls| == CLASSES && Stocked(h, c).live == h.live
    ensures Ok(Stocked(h, c)) && |Stocked(h, c).cls[c]| >= 2 ==> Stocked(h, c).cls[c][1] !in h.live
  {
    hide Chain;
    if Ok(Stocked(h, c)) && |Stocked(h, c).cls[c]| >= 2 { PopOk(Stocked(h, c), c); }
  }

  lemma FoundKeepsLive(h: Heap, n: nat, s: nat, g: Heap, f: nat)
    requires n > 0 && RunFound(h, n, s, g, f)
    ensures g.live == h.live && g.base == h.base
  {
  }

  lemma LiveNotNull(h: Heap, next: Words, pages: seq<Page>, pagehead: nat, sizehead: seq<nat>, b: nat)
    requires Represents(h, next, pages, pagehead, sizehead) && b in h.live
    ensures b > 0
  {
    assert LiveBlock(h, b);
  }

  lemma FreedLive(h: Heap, next: Words, pages: seq<Page>, pagehead: nat, sizehead: seq<nat>, b: nat)
    requires Represents(h, next, pages, pagehead, sizehead) && b in h.live
    ensures b >= h.base && PageOf(h.base, b) < |h.owner| && Freed(h, b).live == h.live - {b}
  {
    LiveWord(h, next, pages, pagehead, sizehead, b);
  }

  /** A list link takes one word of eight bytes. */
  const WORD: nat := 8

  /** Writes inside a live block leave the allocator's lists alone. */
  lemma WriteRefines(h: Heap, next: Words, pages: seq<Page>, pagehead: nat, sizehead: seq<nat>, b: nat, m: Words)
    requires Represents(h, next, pages, pagehead, sizehead) && b in h.live
    requires forall x :: x in next && !Overlap(x, WORD, b, h.live[b]) ==> x in m && m[x] == next[x]
    ensures Represents(h, m, pages, pagehead, sizehead)
  {
    LinksOutsideBlock(h, b);
    assert |h.cls| == CLASSES;
    hide Ok; hide Overlap; hide PA; hide PagesOk;
  }

  lemma LinksOutsideBlock(h: Heap, b: nat)
    requires Ok(h) && b in h.live
    ensures forall i :: 0 <= i < |h.free| ==> !Overlap(PA(h.base, h.free[i]), WORD, b, h.live[b])
    ensures forall c, i :: 0 <= c < CLASSES && 0 <= i < |h.cls[c]| ==> !Overlap(h.cls[c][i], WORD, b, h.live[b])
  {
    LiveApartFromLists(h, b);
    forall c, i | 0 <= c < CLASSES && 0 <= i < |h.cls[c]| ensures !Overlap(h.cls[c][i], WORD, b, h.live[b]) {
      BlocksPerPage(c);
      assert !Overlap(b, h.live[b], h.cls[c][i], BlockSize(c));
    }
    forall i | 0 <= i < |h.free| ensures !Overlap(PA(h.base, h.free[i]), WORD, b, h.live[b]) {
      assert !Overlap(b, h.live[b], PA(h.base, h.free[i]), PGSIZE);
    }
  }

  // ---------------------------------------------------------------------------------------
  // Start-up

  /** sizeof(Page) */
  const PAGESIZEOF: nat := 16

  function TableSize(top: nat, end: nat): nat
    requires top <= end
  {
    PageRoundUp((end - top) / PGSIZE) * PAGESIZEOF
  }

  /** The page table set up at start can describe every page the heap can ever have. */
  lemma PageTableSuffices(top: nat, end: nat, pages: nat)
    requires top <= end && PA(top + TableSize(top, end), pages) <= end
    ensures pages <= PageRoundUp((end - top) / PGSIZE) && pages * PAGESIZEOF <= TableSize(top, end)
  {
  }

  /** The heap after start-up: one page for each class, nothing free, nothing handed out. */
  function InitialHeap(base: nat): Heap
  {
    Heap(base, seq(CLASSES, c requires 0 <= c < CLASSES => Small(c)), [],
         seq(CLASSES, c requires 0 <= c < CLASSES => Blocks(base, c, c)), map[])
  }

  lemma InitialMeans(base: nat)
    ensures var h := InitialHeap(base);
      && h.base == base && h.live == map[] && h.free == [] && |h.owner| == 9
      && forall c :: 0 <= c < 9 ==> h.owner[c] == Small(c)
  {
  }

  /** The first `n` classes have their pages. */
  ghost predicate FirstClasses(base: nat, n: nat, next: Words, pages: seq<Page>, sizehead: seq<nat>)
  {
    && n <= CLASSES && |pages| == n && |sizehead| == 32
    && (forall c :: 0 <= c < n ==> pages[c] == Page(PA(base, c), 1 + Pow2(c + 3)) && sizehead[c + 3] == PA(base, c))
    && (forall c :: 0 <= c < n ==> Chain(next, Blocks(base, c, c)))
  }

  lemma StartTable(top: nat, end: nat)
    requires top <= end
    ensures TableSize(top, end) == PageRoundUp((end - top) / PGSIZE) * PAGESIZEOF
  {
  }

  lemma NoClasses(base: nat, next: Words, sizehead: seq<nat>)
    requires |sizehead| == 32
    ensures FirstClasses(base, 0, next, [], sizehead) && PA(base, 0) == base
  {
  }

  lemma FewerPages(base: nat, k: nat)
    requires k < CLASSES
    ensures PA(base, k) + PGSIZE == PA(base, k + 1) <= base + PGSIZE * CLASSES
  {
  }

  lemma BlocksAt(base: nat, k: nat, pos: nat)
    requires 3 <= pos < 12
    ensures var bs := Blocks(base, k, pos - 3); forall j :: 0 <= j < |bs| ==> bs[j] == NBP(PA(base, k), pos, j)
  {
  }

  /** One more class gets its page. */
  lemma NextClass(base: nat, pos: nat, m: Words, pages: seq<Page>, heads: seq<nat>)
    requires 3 <= pos < 12 && FirstClasses(base, pos - 3, m, pages, heads)
    ensures |heads| == 32 && Blocks(base, pos - 3, pos - 3) != []
    ensures var c := pos - 3;
      FirstClasses(base, c + 1, LinkAll(m, Blocks(base, c, c)), pages + [Page(PA(base, c), 1 + Pow2(pos))],
        heads[pos := PA(base, c)])
  {
    var n := pos - 3;
    BlocksCoverPage(base, n, n);
    LinkAllChains(m, Blocks(base, n, n));
    forall c | 0 <= c < n ensures Chain(LinkAll(m, Blocks(base, n, n)), Blocks(base, c, c)) {
      BlocksCoverPage(base, c, c);
    }
  }

  lemma InitialRefines(base: nat, next: Words, pages: seq<Page>, sizehead: seq<nat>)
    requires base > 0 && FirstClasses(base, CLASSES, next, pages, sizehead)
    ensures Represents(InitialHeap(base), next, pages, 0, sizehead)
    ensures |InitialHeap(base).owner| == CLASSES && InitialHeap(base).base == base
  {
    InitialOk(base);
    hide Ok; hide Chain; hide Blocks;
    forall c | 0 <= c < CLASSES ensures Blocks(base, c, c) != [] && Blocks(base, c, c)[0] == PA(base, c) {
      FirstBlock(base, c, c);
    }
  }

  lemma InitialOk(base: nat)
    requires base > 0
    ensures Ok(InitialHeap(base))
  {
    var h := InitialHeap(base);
    hide Blocks;
    forall c | 0 <= c < CLASSES
      ensures PageBlocks(base, c, c, Blocks(base, c, c)) && Blocks(base, c, c)[0] == PA(base, c) {
      BlocksCoverPage(base, c, c);
      FirstBlock(base, c, c);
    }
  }
}
