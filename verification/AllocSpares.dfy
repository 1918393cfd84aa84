/** The stores of kernel/mem.c stay out of the blocks that are handed out. */
module AllocSpares {
  import opened Common
  import opened AllocHeap
  import opened AllocSteps
  import opened AllocLinks
  import opened AllocRefines

  /** The word at `x` lies outside all live blocks. */
  ghost predicate NoBlock(live: map<nat, nat>, x: nat)
  {
    forall b :: b in live ==> !Overlap(x, WORD, b, live[b])
  }

  /** Every word that touches a live block is as before. */
  ghost predicate Spares(live: map<nat, nat>, next: Words, m: Words)
  {
    forall x :: x in next && !NoBlock(live, x) ==> x in m && m[x] == next[x]
  }

  lemma SparesBoth(live: map<nat, nat>, a: Words, b: Words, c: Words)
    requires Spares(live, a, b) && Spares(live, b, c)
    ensures Spares(live, a, c)
  {
  }

  lemma SparesSelf(live: map<nat, nat>, a: Words)
    ensures Spares(live, a, a)
  {
  }

  lemma StoreSpares(live: map<nat, nat>, next: Words, a: nat, v: nat)
    requires NoBlock(live, a)
    ensures Spares(live, next, next[a := v])
  {
  }

  /** The links of the lists lie outside all blocks. */
  lemma ListedNoBlock(h: Heap)
    requires Ok(h)
    ensures |h.cls| == CLASSES
    ensures forall i :: 0 <= i < |h.free| ==> NoBlock(h.live, Addrs(h.base, h.free)[i])
    ensures forall c, i :: 0 <= c < CLASSES && 0 <= i < |h.cls[c]| ==> NoBlock(h.live, h.cls[c][i])
  {
    forall i | 0 <= i < |h.free| ensures NoBlock(h.live, Addrs(h.base, h.free)[i]) {
      forall b | b in h.live ensures !Overlap(PA(h.base, h.free[i]), WORD, b, h.live[b]) { LinksOutsideBlock(h, b); }
    }
    forall c, i | 0 <= c < CLASSES && 0 <= i < |h.cls[c]| ensures NoBlock(h.live, h.cls[c][i]) {
      forall b | b in h.live ensures !Overlap(h.cls[c][i], WORD, b, h.live[b]) { LinksOutsideBlock(h, b); }
    }
  }

  /** So do the words of lost pages. */
  lemma LostNoBlock(h: Heap, x: nat)
    requires Ok(h) && x >= h.base && OwnerAt(h, x) == Lost && PageOf(h.base, x) < |h.owner|
    requires Offset(h.base, x) + WORD <= PGSIZE
    ensures NoBlock(h.live, x)
  {
    forall b | b in h.live ensures !Overlap(x, WORD, b, h.live[b]) { LostApart(h, x, b); }
  }

  lemma LostApart(h: Heap, x: nat, b: nat)
    requires Ok(h) && b in h.live && x >= h.base && OwnerAt(h, x) == Lost && PageOf(h.base, x) < |h.owner|
    requires Offset(h.base, x) + WORD <= PGSIZE
    ensures !Overlap(x, WORD, b, h.live[b])
  {
    LiveExtent(h, b);
    hide Ok; hide InClass; hide WholeAt;
    AddressArith(h.base, b);
    AddressArith(h.base, x);
    var o := h.owner[PageOf(h.base, b)];
    if o.Whole? { WholeApart(h, o.first, o.count, x, WORD); }
  }

  /** Chaining words outside all blocks. */
  lemma LinkAllSpares(live: map<nat, nat>, next: Words, run: seq<nat>)
    requires run != [] && Increasing(run) && forall i :: 0 <= i < |run| ==> NoBlock(live, run[i])
    ensures Spares(live, next, LinkAll(next, run))
  {
    LinkAllChains(next, run);
    hide LinkAll; hide NoBlock; hide Increasing; hide Chain;
    forall a | a in run ensures NoBlock(live, a) {}
  }

  /** The blocks of a lost page. */
  lemma BlocksNoBlock(h: Heap, k: nat, c: nat, bs: seq<nat>)
    requires Ok(h) && c < CLASSES && k < |h.owner| && h.owner[k] == Lost && PageBlocks(h.base, k, c, bs)
    ensures forall i :: 0 <= i < |bs| ==> NoBlock(h.live, bs[i])
  {
    hide Ok;
    BlocksPerPage(c);
    forall i | 0 <= i < |bs| ensures NoBlock(h.live, bs[i]) {
      AddressArith(h.base, bs[i]);
      MultiplesApart(Offset(h.base, bs[i]), PGSIZE, BlockSize(c));
      LostNoBlock(h, bs[i]);
    }
  }

  /** The first words of lost pages. */
  lemma PagesNoBlock(h: Heap, f: nat, n: nat)
    requires Ok(h) && AllLost(h, f, n)
    ensures forall i :: 0 <= i < |PageRun(h.base, f, n)| ==> NoBlock(h.live, PageRun(h.base, f, n)[i])
  {
    PageRunFacts(h.base, f, n);
    hide Ok;
    forall i | 0 <= i < n ensures NoBlock(h.live, PageRun(h.base, f, n)[i]) {
      PageArith(h.base, f + i, 0);
      LostNoBlock(h, PA(h.base, f + i));
    }
  }

  /** Splicing stores into the list and into the last of the words put in. */
  lemma SplicedSpares(live: map<nat, nat>, next: Words, xs: seq<nat>, run: seq<nat>, m: Words)
    requires run != [] && Spliced(next, xs, run, m) && NoBlock(live, run[|run| - 1])
    requires forall i :: 0 <= i < |xs| ==> NoBlock(live, xs[i])
    ensures Spares(live, next, m)
  {
    hide NoBlock;
  }

  /** A freed block is no longer in the way of its own link. */
  lemma FreedNoBlock(h: Heap, c: nat, b: nat)
    requires Ok(h) && c < CLASSES && b in h.live && InClass(h, b, c)
    ensures |h.cls| == CLASSES && NoBlock(Push(h, c, b).live, b)
    ensures forall i :: 0 <= i < |h.cls[c]| ==> NoBlock(Push(h, c, b).live, h.cls[c][i])
  {
    ListedNoBlock(h);
    assert BlockOk(h, b, c);
    BlocksPerPage(c);
    hide Ok; hide InClass; hide PA;
    forall a | a in h.live - {b} ensures !Overlap(b, WORD, a, (h.live - {b})[a]) { LiveBlocksDisjoint(h, a, b); }
    forall i | 0 <= i < |h.cls[c]| ensures NoBlock(h.live - {b}, h.cls[c][i]) {}
  }

  // ---------------------------------------------------------------------------------------
  // What the methods of the allocator need

  lemma InsertSpares(h: Heap, next: Words, pages: seq<Page>, pagehead: nat, sizehead: seq<nat>, f: nat, n: nat)
    requires Represents(h, next, pages, pagehead, sizehead) && AllLost(h, f, n)
    ensures |PageRun(h.base, f, n)| == n > 0 && NoBlock(h.live, PageRun(h.base, f, n)[n - 1])
    ensures forall i :: 0 <= i < |Addrs(h.base, h.free)| ==> NoBlock(h.live, Addrs(h.base, h.free)[i])
    ensures PutFree(h, f, n).live == h.live
  {
    ListedNoBlock(h);
    PagesNoBlock(h, f, n);
    PageRunFacts(h.base, f, n);
  }

  lemma FreeSpares(h: Heap, next: Words, pages: seq<Page>, pagehead: nat, sizehead: seq<nat>, c: nat, b: nat)
    requires Represents(h, next, pages, pagehead, sizehead) && c < CLASSES && b in h.live && InClass(h, b, c)
    ensures |h.cls| == CLASSES && NoBlock(Push(h, c, b).live, b)
    ensures forall i :: 0 <= i < |h.cls[c]| ==> NoBlock(Push(h, c, b).live, h.cls[c][i])
  {
    FreedNoBlock(h, c, b);
  }

  /** The entry before a run: bigfind's store goes there. */
  lemma PredecessorSpares(h: Heap, next: Words, pages: seq<Page>, pagehead: nat, sizehead: seq<nat>, s: nat)
    requires Represents(h, next, pages, pagehead, sizehead)
    ensures 0 < s <= |h.free| ==> NoBlock(h.live, PA(h.base, h.free[s - 1]))
  {
    ListedNoBlock(h);
    assert 0 < s <= |h.free| ==> NoBlock(h.live, Addrs(h.base, h.free)[s - 1]);
  }

  /** What smallfind reads of a class, and where it stores. */
  lemma ClassFacts(h: Heap, next: Words, pages: seq<Page>, pagehead: nat, sizehead: seq<nat>, c: nat)
    requires Represents(h, next, pages, pagehead, sizehead) && c < CLASSES
    ensures Ok(h) && |h.cls| == CLASSES && |sizehead| == 32
    ensures |h.cls[c]| >= 1 && sizehead[c + 3] == h.cls[c][0] && h.cls[c][0] in next
    ensures next[h.cls[c][0]] == AtOrNull(h.cls[c], 1) && (next[h.cls[c][0]] == 0 <==> |h.cls[c]| == 1)
    ensures NoBlock(h.live, h.cls[c][0])
  {
    ClassHead(h, next, sizehead, c);
    ListedNoBlock(h);
  }
}
