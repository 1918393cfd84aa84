/** The lists of kernel/mem.c as they lie in memory: chains of addresses linked through their first
    words, and the page table entries that record what every page is used for. */
module AllocLinks {
  import opened Common
  import opened AllocHeap
  import opened AllocSteps

  const BIGBIT: nat := 0x80000000

  /** The largest request, 2^24 bytes, in pages. */
  const MAXRUN: nat := 4096

  datatype Page = Page(start: nat, word: nat)

  /** The words of memory that have been written. */
  type Words = map<nat, nat>

  function AtOrNull(xs: seq<nat>, i: nat): nat
  {
    if i < |xs| then xs[i] else 0
  }

  /** Every element's word points to the next one; the last one's is NULL. */
  ghost predicate Chain(next: Words, xs: seq<nat>)
  {
    forall i :: 0 <= i < |xs| ==> xs[i] in next && next[xs[i]] == AtOrNull(xs, i + 1)
  }

  /** Every element but the last points to the next one. */
  ghost predicate RunLinked(next: Words, run: seq<nat>)
  {
    forall j :: 0 <= j < |run| - 1 ==> run[j] in next && next[run[j]] == run[j + 1]
  }

  function Addrs(base: nat, fs: seq<nat>): (r: seq<nat>)
    ensures |r| == |fs| && forall i :: 0 <= i < |fs| ==> r[i] == PA(base, fs[i])
  {
    seq(|fs|, i requires 0 <= i < |fs| => PA(base, fs[i]))
  }

  /** The information word of page `k`. */
  ghost predicate WordOk(o: Owner, k: nat, w: nat)
  {
    match o
    case Small(c) => w == 1 + Pow2(c + 3)
    case Whole(f, n) => k == f ==> n <= MAXRUN && w == if n == 1 then 1 + PGSIZE else BIGBIT + n
    case _ => true
  }

  ghost predicate PagesOk(h: Heap, pages: seq<Page>)
  {
    && |pages| == |h.owner|
    && forall k :: 0 <= k < |pages| ==> pages[k].start == PA(h.base, k) && WordOk(h.owner[k], k, pages[k].word)
  }

  ghost predicate FreeLinked(h: Heap, next: Words, pagehead: nat)
  {
    pagehead == AtOrNull(Addrs(h.base, h.free), 0) && Chain(next, Addrs(h.base, h.free))
  }

  ghost predicate ClassesLinked(h: Heap, next: Words, sizehead: seq<nat>)
    requires |h.cls| == CLASSES
  {
    && |sizehead| == 32
    && forall c :: 0 <= c < CLASSES ==> Chain(next, h.cls[c]) && h.cls[c] != [] && sizehead[c + 3] == h.cls[c][0]
  }

  /** Memory, page table and list heads are those of the heap `h`. */
  ghost predicate Represents(h: Heap, next: Words, pages: seq<Page>, pagehead: nat, sizehead: seq<nat>)
  {
    Ok(h) && PagesOk(h, pages) && FreeLinked(h, next, pagehead) && ClassesLinked(h, next, sizehead)
  }

  // ---------------------------------------------------------------------------------------
  // Stores and chains

  lemma ChainAt(next: Words, xs: seq<nat>, i: nat)
    requires Chain(next, xs) && i < |xs|
    ensures xs[i] in next && next[xs[i]] == AtOrNull(xs, i + 1)
  {
  }

  lemma OthersDiffer(xs: seq<nat>, i: nat)
    requires Increasing(xs) && i < |xs|
    ensures forall k :: 0 <= k < |xs| && k != i ==> xs[k] != xs[i]
  {
  }

  /** Unlinking the run from `i` to `i + n - 1` is one store, in its predecessor. */
  lemma ChainUnlink(next: Words, xs: seq<nat>, i: nat, n: nat)
    requires Chain(next, xs) && Increasing(xs) && i + n <= |xs|
    ensures i == 0 ==> Chain(next, RemoveRun(xs, i, n))
    ensures i > 0 ==> Chain(next[xs[i - 1] := AtOrNull(xs, i + n)], RemoveRun(xs, i, n))
  {
    hide Increasing;
    if i > 0 { OthersDiffer(xs, i - 1); }
    var ys := RemoveRun(xs, i, n);
    var m := if i > 0 then next[xs[i - 1] := AtOrNull(xs, i + n)] else next;
    forall j | 0 <= j < |ys| ensures ys[j] in m && m[ys[j]] == AtOrNull(ys, j + 1) {
      var k := if j < i then j else j + n;
      assert ys[j] == xs[k];
      assert j != i - 1 ==> AtOrNull(ys, j + 1) == AtOrNull(xs, k + 1);
    }
  }

  /** The two stores that put the run `run` behind the `r` lower elements of `xs`; with `r == 0` there
      is no predecessor to store into. */
  ghost predicate Spliced(next: Words, xs: seq<nat>, run: seq<nat>, m: Words)
    requires run != []
  {
    var r, last := Rank(xs, run[0]), run[|run| - 1];
    m == if r == 0 then next[last := AtOrNull(xs, 0)] else next[xs[r - 1] := run[0]][last := AtOrNull(xs, r)]
  }

  /** After those stores every element of the list and of the run has the right successor. */
  ghost predicate LinkedIn(next: Words, xs: seq<nat>, run: seq<nat>, m: Words)
    requires run != []
  {
    var r, n := Rank(xs, run[0]), |run|;
    && (forall j :: 0 <= j < n - 1 ==> run[j] in m && m[run[j]] == run[j + 1])
    && run[n - 1] in m && m[run[n - 1]] == AtOrNull(xs, r)
    && (r > 0 ==> xs[r - 1] in m && m[xs[r - 1]] == run[0])
    && (forall i :: 0 <= i < |xs| && i != r - 1 ==> xs[i] in m && m[xs[i]] == AtOrNull(xs, i + 1))
  }

  lemma SplicedLinksIn(next: Words, xs: seq<nat>, run: seq<nat>, m: Words)
    requires Chain(next, xs) && Increasing(xs) && run != [] && Increasing(run) && RunLinked(next, run)
    requires forall i :: 0 <= i < |xs| ==> xs[i] < run[0] || xs[i] > run[|run| - 1]
    requires Spliced(next, xs, run, m)
    ensures LinkedIn(next, xs, run, m)
  {
    hide Increasing;
    ApartFromList(xs, run);
  }

  /** The elements of the list and of the run that a splice changes are none of the others. */
  lemma ApartFromList(xs: seq<nat>, run: seq<nat>)
    requires Increasing(xs) && run != [] && Increasing(run)
    requires forall i :: 0 <= i < |xs| ==> xs[i] < run[0] || xs[i] > run[|run| - 1]
    ensures forall i :: 0 <= i < |xs| ==> xs[i] != run[|run| - 1]
    ensures forall j :: 0 <= j < |run| - 1 ==> run[j] != run[|run| - 1]
    ensures var r := Rank(xs, run[0]);
      r > 0 ==> (forall j :: 0 <= j < |run| ==> run[j] != xs[r - 1]) && forall i :: 0 <= i < |xs| && i != r - 1 ==>
        xs[i] != xs[r - 1]
  {
    var r := Rank(xs, run[0]);
    forall j | 0 <= j < |run| ensures run[0] <= run[j] {}
    if r > 0 {
      forall i | 0 <= i < |xs| && i != r - 1 ensures xs[i] != xs[r - 1] {}
    }
  }

  /** A sorted chained run, all of it between two neighbours of the list, is linked in by those stores. */
  lemma ChainLink(next: Words, xs: seq<nat>, run: seq<nat>, m: Words)
    requires Chain(next, xs) && Increasing(xs) && run != [] && Increasing(run) && RunLinked(next, run)
    requires forall i :: 0 <= i < |xs| ==> xs[i] < run[0] || xs[i] > run[|run| - 1]
    requires Spliced(next, xs, run, m)
    ensures Chain(m, InsertRun(xs, run))
    ensures AtOrNull(InsertRun(xs, run), 0) == if Rank(xs, run[0]) == 0 then run[0] else AtOrNull(xs, 0)
  {
    SplicedLinksIn(next, xs, run, m);
    hide Increasing; hide Spliced;
    var r, n, ys := Rank(xs, run[0]), |run|, InsertRun(xs, run);
    forall j | 0 <= j < |ys| ensures ys[j] in m && m[ys[j]] == AtOrNull(ys, j + 1) {
      InsertedNext(xs, run, j);
    }
  }

  /** Element `j` of the list with the run put in, and what follows it. */
  lemma InsertedNext(xs: seq<nat>, run: seq<nat>, j: nat)
    requires run != [] && j < |xs| + |run|
    ensures var r, n, ys := Rank(xs, run[0]), |run|, InsertRun(xs, run);
      && |ys| == |xs| + n
      && (j < r ==> ys[j] == xs[j] && AtOrNull(ys, j + 1) == if j == r - 1 then run[0] else AtOrNull(xs, j + 1))
      && (r <= j < r + n ==>
        ys[j] == run[j - r] && AtOrNull(ys, j + 1) == if j == r + n - 1 then AtOrNull(xs, r) else run[j - r + 1])
      && (r + n <= j ==> ys[j] == xs[j - n] && AtOrNull(ys, j + 1) == AtOrNull(xs, j - n + 1))
  {
  }

  // ---------------------------------------------------------------------------------------
  // A store into one page leaves the lists of other pages alone

  /** Who owns the page of address `a`. */
  ghost function OwnerAt(h: Heap, a: nat): Owner
  {
    if a >= h.base && PageOf(h.base, a) < |h.owner| then h.owner[PageOf(h.base, a)] else Lost
  }

  lemma ListOwners(h: Heap)
    requires Ok(h)
    ensures forall i :: 0 <= i < |h.free| ==> OwnerAt(h, PA(h.base, h.free[i])) == Free
    ensures forall c, i :: 0 <= c < CLASSES && 0 <= i < |h.cls[c]| ==> OwnerAt(h, h.cls[c][i]) == Small(c)
  {
    forall i | 0 <= i < |h.free| ensures OwnerAt(h, PA(h.base, h.free[i])) == Free { PageArith(h.base, h.free[i], 0); }
    forall c, i | 0 <= c < CLASSES && 0 <= i < |h.cls[c]| ensures OwnerAt(h, h.cls[c][i]) == Small(c) {
      assert ClassOk(h, c) && InClass(h, h.cls[c][i], c);
    }
  }

  /** The words in pages of owner `o` are the same in both memories. */
  ghost predicate SameIn(h: Heap, o: Owner, next: Words, m: Words)
  {
    forall a :: a in next && OwnerAt(h, a) == o ==> a in m && m[a] == next[a]
  }

  lemma FreeElsewhere(h: Heap, next: Words, pagehead: nat, m: Words)
    requires Ok(h) && FreeLinked(h, next, pagehead) && SameIn(h, Free, next, m)
    ensures FreeLinked(h, m, pagehead)
  {
    ListOwners(h);
    hide Ok; hide OwnerAt; hide PA;
  }

  lemma ClassElsewhere(h: Heap, next: Words, c: nat, m: Words)
    requires Ok(h) && c < CLASSES && Chain(next, h.cls[c]) && SameIn(h, Small(c), next, m)
    ensures Chain(m, h.cls[c])
  {
    ListOwners(h);
    hide Ok; hide OwnerAt;
  }

  lemma ClassesElsewhere(h: Heap, next: Words, sizehead: seq<nat>, m: Words)
    requires Ok(h) && ClassesLinked(h, next, sizehead) && forall c :: 0 <= c < CLASSES ==> SameIn(h, Small(c), next, m)
    ensures ClassesLinked(h, m, sizehead)
  {
    hide SameIn;
    forall c | 0 <= c < CLASSES ensures Chain(m, h.cls[c]) { ClassElsewhere(h, next, c, m); }
  }

  /** Storing in the first `i` elements the address of the next one. */
  function LinkUpTo(next: Words, run: seq<nat>, i: nat): Words
    requires i < |run|
  {
    if i == 0 then next else LinkUpTo(next, run, i - 1)[run[i - 1] := run[i]]
  }

  /** Chaining all of `run`. */
  function LinkAll(next: Words, run: seq<nat>): Words
    requires run != []
  {
    LinkUpTo(next, run, |run| - 1)[run[|run| - 1] := 0]
  }

  lemma {:induction false} LinkUpToLinks(next: Words, run: seq<nat>, i: nat)
    requires i < |run| && Increasing(run)
    ensures forall j :: 0 <= j < i ==> run[j] in LinkUpTo(next, run, i) && LinkUpTo(next, run, i)[run[j]] == run[j + 1]
    ensures forall a :: a in next && a !in run ==> a in LinkUpTo(next, run, i) && LinkUpTo(next, run, i)[a] == next[a]
  {
    if i > 0 { LinkUpToLinks(next, run, i - 1); }
  }

  lemma LinkAllChains(next: Words, run: seq<nat>)
    requires run != [] && Increasing(run)
    ensures Chain(LinkAll(next, run), run)
    ensures forall a :: a in next && a !in run ==> a in LinkAll(next, run) && LinkAll(next, run)[a] == next[a]
  {
    LinkUpToLinks(next, run, |run| - 1);
  }

  /** The blocks of a page belong to whom the page belongs to. */
  lemma BlocksOwner(h: Heap, k: nat, c: nat, bs: seq<nat>)
    requires k < |h.owner| && PageBlocks(h.base, k, c, bs)
    ensures bs != [] && Increasing(bs) && forall i :: 0 <= i < |bs| ==> OwnerAt(h, bs[i]) == h.owner[k]
  {
  }

  lemma PagesOwner(h: Heap, f: nat, n: nat)
    requires AllLost(h, f, n)
    ensures forall i :: 0 <= i < |PageRun(h.base, f, n)| ==> OwnerAt(h, PageRun(h.base, f, n)[i]) == Lost
  {
    PageRunFacts(h.base, f, n);
  }

  /** Chaining addresses in lost pages leaves all lists alone. */
  lemma LinkAllElsewhere(h: Heap, next: Words, pagehead: nat, sizehead: seq<nat>, run: seq<nat>)
    requires Ok(h) && FreeLinked(h, next, pagehead) && ClassesLinked(h, next, sizehead) && run != [] && Increasing(run)
    requires forall i :: 0 <= i < |run| ==> OwnerAt(h, run[i]) == Lost
    ensures FreeLinked(h, LinkAll(next, run), pagehead) && ClassesLinked(h, LinkAll(next, run), sizehead)
  {
    LinkAllChains(next, run);
    hide LinkAll; hide OwnerAt; hide Ok; hide FreeLinked; hide ClassesLinked;
    FreeElsewhere(h, next, pagehead, LinkAll(next, run));
    ClassesElsewhere(h, next, sizehead, LinkAll(next, run));
  }

  /** The addresses of `n` pages from page `f` on. */
  function PageRun(base: nat, f: nat, n: nat): seq<nat>
  {
    Addrs(base, Range(f, n))
  }

  lemma PageRunFacts(base: nat, f: nat, n: nat)
    requires n > 0
    ensures var run := PageRun(base, f, n);
      && |run| == n && Increasing(run) && run[0] == PA(base, f) && run[n - 1] == PA(base, f + n - 1)
      && (forall j :: 0 <= j < n ==> run[j] == PA(base, f + j) && run[j] >= base && PageOf(base, run[j]) == f + j)
  {
    forall j | 0 <= j < n ensures PageOf(base, PageRun(base, f, n)[j]) == f + j { PageArith(base, f + j, 0); }
  }

  /** Linking a chained run of lost pages into the free list. */
  lemma PutFreeLinked(h: Heap, next: Words, pagehead: nat, f: nat, n: nat, m: Words)
    requires Ok(h) && FreeLinked(h, next, pagehead) && AllLost(h, f, n) && RunLinked(next, PageRun(h.base, f, n))
    requires |PageRun(h.base, f, n)| > 0 && Spliced(next, Addrs(h.base, h.free), PageRun(h.base, f, n), m)
    ensures FreeLinked(PutFree(h, f, n), m, if Rank(h.free, f) == 0 then PA(h.base, f) else pagehead)
  {
    var xs, run := Addrs(h.base, h.free), PageRun(h.base, f, n);
    PutFreeOk(h, f, n);
    assert Increasing(h.free);
    AddrsOrder(h.base, h.free, f);
    AddrsIncreasing(h.base, h.free);
    PageRunFacts(h.base, f, n);
    hide Ok; hide AllLost; hide Spliced; hide Chain; hide RunLinked; hide PageOf; hide Increasing;
    ChainLink(next, xs, run, m);
    AddrsInsert(h.base, h.free, Range(f, n));
  }

  lemma AddrsIncreasing(base: nat, fs: seq<nat>)
    requires Increasing(fs)
    ensures Increasing(Addrs(base, fs))
  {
  }

  lemma AddrsOrder(base: nat, fs: seq<nat>, f: nat)
    requires Increasing(fs)
    ensures Rank(Addrs(base, fs), PA(base, f)) == Rank(fs, f)
  {
    var xs, r, q := Addrs(base, fs), Rank(Addrs(base, fs), PA(base, f)), Rank(fs, f);
    assert r < |fs| ==> xs[r] == PA(base, fs[r]);
    assert q < |fs| ==> xs[q] == PA(base, fs[q]);
    assert r > 0 ==> xs[r - 1] == PA(base, fs[r - 1]);
    assert q > 0 ==> xs[q - 1] == PA(base, fs[q - 1]);
  }

  lemma AddrsInsert(base: nat, fs: seq<nat>, run: seq<nat>)
    requires run != [] && Increasing(fs)
    ensures Addrs(base, InsertRun(fs, run)) == InsertRun(Addrs(base, fs), Addrs(base, run))
  {
    AddrsOrder(base, fs, run[0]);
  }

  // ---------------------------------------------------------------------------------------
  // Runs of pages

  ghost predicate AllFree(h: Heap, f: nat, n: nat)
  {
    f + n <= |h.owner| && forall k :: f <= k < f + n ==> h.owner[k] == Free
  }

  /** The free list holds a run of `n` pages whenever `n` consecutive pages of the heap are free. */
  lemma {:induction false} ConsecutivePagesAreRun(h: Heap, f: nat, n: nat) returns (i: nat)
    requires Ok(h) && n > 0 && AllFree(h, f, n)
    ensures IsRun(h.free, i, n) && h.free[i] == f
    decreases n
  {
    var last := f + n - 1;
    assert h.owner[last] == Free && last in h.free;
    var m :| 0 <= m < |h.free| && h.free[m] == last;
    if n == 1 {
      i := m;
    } else {
      i := ConsecutivePagesAreRun(h, f, n - 1);
      var k := i + n - 2;
      assert h.free[k] == last - 1;
      assert k < m;
      assert last - 1 < h.free[k + 1];
    }
  }

  /** Every run the list holds stands for pages that are free and consecutive. */
  lemma RunIsConsecutivePages(h: Heap, i: nat, n: nat)
    requires Ok(h) && IsRun(h.free, i, n) && n > 0
    ensures AllFree(h, h.free[i], n)
  {
    var f := h.free[i];
    assert h.free[i + (n - 1)] == f + (n - 1);
    forall k | f <= k < f + n ensures h.owner[k] == Free {
      assert h.free[i + (k - f)] == k;
    }
  }

  /** Taking a run of free pages and giving it back as one block restores the heap exactly. */
  lemma ReleaseUndoesClaim(h: Heap, i: nat, n: nat)
    requires Ok(h) && n > 0 && IsRun(h.free, i, n)
    ensures var f := h.free[i]; f + n <= |h.owner| && Release(Claim(TakeFree(h, i, n), f, n), f, n) == h
  {
    var f := h.free[i];
    RunIsConsecutivePages(h, i, n);
    TakenRunIsLost(h, i, n);
    TakeFreeOk(h, i, n);
    ClaimOk(TakeFree(h, i, n), f, n);
    RunSlice(h.free, i, n, h.free[i..i + n]);
    InsertUndoesRemove(h.free, i, n);
    var r := Release(Claim(TakeFree(h, i, n), f, n), f, n);
    OwnersRestored(h, i, n);
    LiveRestored(h.live, PA(h.base, f), PGSIZE * n);
  }

  lemma OwnersRestored(h: Heap, i: nat, n: nat)
    requires Ok(h) && n > 0 && IsRun(h.free, i, n)
    ensures var f := h.free[i]; f + n <= |h.owner| && Release(Claim(TakeFree(h, i, n), f, n), f, n).owner == h.owner
  {
    var f := h.free[i];
    RunIsConsecutivePages(h, i, n);
    RunSlice(h.free, i, n, h.free[i..i + n]);
    var r := Release(Claim(TakeFree(h, i, n), f, n), f, n);
    assert |r.owner| == |h.owner|;
    forall k | 0 <= k < |h.owner| ensures r.owner[k] == h.owner[k] {
      if f <= k < f + n { assert h.owner[k] == Free; } else { assert k !in h.free[i..i + n]; }
    }
  }

  lemma LiveRestored(m: map<nat, nat>, p: nat, v: nat)
    requires p !in m
    ensures m[p := v] - {p} == m
  {
  }

  lemma RunSlice(fs: seq<nat>, i: nat, n: nat, run: seq<nat>)
    requires IsRun(fs, i, n) && n > 0 && run == fs[i..i + n]
    ensures run == Range(fs[i], n)
    ensures forall k :: k in run <==> fs[i] <= k < fs[i] + n
  {
    forall k | fs[i] <= k < fs[i] + n ensures k in run { assert run[k - fs[i]] == k; }
  }

  lemma TakenRunIsLost(h: Heap, i: nat, n: nat)
    requires Ok(h) && n > 0 && IsRun(h.free, i, n)
    ensures AllLost(TakeFree(h, i, n), h.free[i], n)
  {
    RunIsConsecutivePages(h, i, n);
    RunSlice(h.free, i, n, h.free[i..i + n]);
  }

  /** A small block handed out and given back leaves its class list as it was. */
  lemma PushUndoesPop(h: Heap, c: nat)
    requires Ok(h) && c < CLASSES && |h.cls[c]| >= 2
    ensures Push(Pop(h, c), c, h.cls[c][1]) == h
  {
    hide Ok; hide Increasing; hide InsertRun; hide RemoveRun;
    ListedFree(h, c);
    var b := h.cls[c][1];
    InsertUndoesRemove(h.cls[c], 1, 1);
    assert h.cls[c][1..2] == [b];
    var p := Pop(h, c);
    assert p.cls[c] == RemoveRun(h.cls[c], 1, 1);
    assert Push(p, c, b).cls == h.cls;
    assert Push(p, c, b).live == h.live;
  }

  lemma ListedFree(h: Heap, c: nat)
    requires Ok(h) && c < CLASSES && |h.cls[c]| >= 2
    ensures |h.cls| == CLASSES && Increasing(h.cls[c]) && h.cls[c][1] !in h.live
  {
    PopOk(h, c);
    assert ClassOk(h, c);
  }

  /** The block that a small request gets is the lowest free one of its class. */
  lemma PopIsMinimum(h: Heap, c: nat, b: nat)
    requires Ok(h) && c < CLASSES && |h.cls[c]| >= 2
    requires InClass(h, b, c) && b !in h.live && b != PA(h.base, c)
    ensures h.cls[c][1] <= b
  {
    assert ClassOk(h, c) && BlockOk(h, b, c);
    var i :| 0 <= i < |h.cls[c]| && h.cls[c][i] == b;
  }

  // ---------------------------------------------------------------------------------------
  // The search for a run

  /** The search has come to entry `q`: the run that ends there starts at `s` and is too short, and
      no run of `n` pages ends there or earlier. */
  ghost predicate Scan(fs: seq<nat>, n: nat, s: nat, q: nat)
  {
    && s <= q < |fs| && q - s + 1 < n && IsRun(fs, s, q - s + 1)
    && (s > 0 ==> fs[s - 1] + 1 != fs[s])
    && forall j :: 0 <= j && j + n <= q + 1 ==> !IsRun(fs, j, n)
  }

  lemma ScanStart(fs: seq<nat>, n: nat)
    requires fs != [] && n >= 2
    ensures Scan(fs, n, 0, 0)
  {
  }

  lemma Neighbours(base: nat, k: nat, l: nat)
    ensures PA(base, k) + PGSIZE == PA(base, l) <==> k + 1 == l
  {
  }

  lemma ScanExtend(fs: seq<nat>, n: nat, s: nat, q: nat)
    requires Scan(fs, n, s, q) && q + 1 < |fs| && fs[q] + 1 == fs[q + 1]
    ensures q - s + 2 < n ==> Scan(fs, n, s, q + 1)
    ensures q - s + 2 == n ==> FirstFit(fs, s, n)
  {
    assert fs[q] == fs[s] + (q - s);
  }

  lemma ScanRestart(fs: seq<nat>, n: nat, s: nat, q: nat)
    requires Scan(fs, n, s, q) && q + 1 < |fs| && fs[q] + 1 != fs[q + 1]
    ensures Scan(fs, n, q + 1, q + 1)
  {
  }

  lemma ScanEnd(fs: seq<nat>, n: nat, s: nat)
    requires fs != [] && Scan(fs, n, s, |fs| - 1)
    ensures NoRun(fs, n) && TailStart(fs, s)
  {
  }

  /** First fit in the list is first fit in memory: no `n` consecutive free pages start lower. */
  lemma FirstFitIsLowest(h: Heap, i: nat, n: nat, g: nat)
    requires Ok(h) && n > 0 && FirstFit(h.free, i, n) && AllFree(h, g, n)
    ensures h.free[i] <= g
  {
    var j := ConsecutivePagesAreRun(h, g, n);
    assert j >= i;
  }

  /** A request takes more from the heap only if no `n` consecutive pages are free. */
  lemma NoRunNoPages(h: Heap, n: nat, g: nat)
    requires Ok(h) && n > 0 && NoRun(h.free, n)
    ensures !AllFree(h, g, n)
  {
    if AllFree(h, g, n) {
      var j := ConsecutivePagesAreRun(h, g, n);
    }
  }
}
