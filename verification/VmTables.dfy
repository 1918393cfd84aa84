/** The three-level page tables of kernel/vm.c (Sv39, section 4.4 of the RISC-V Privileged
    Architecture v1.12) as tables in memory, and what they mean: a flat map from pages to leaf
    entries. */
module VmTables {
  import opened Common

  const ENTRIES: nat := 512

  /** The size of the Sv39 address space: bits 39 to 63 of an address are zero. */
  const SPACE: nat := 0x80_0000_0000

  // ---------------------------------------------------------------------------------------
  // Words

  /** PX: the index into a table of the given level. */
  function PX(level: nat, va: nat): (i: nat)
    requires level <= 2
    ensures i < ENTRIES
  {
    if level == 0 then va / 0x1000 % 512 else if level == 1 then va / 0x20_0000 % 512 else va / 0x4000_0000 % 512
  }

  function PA2PTE(pa: nat): nat
  {
    pa / 4096 * 1024
  }

  function PTE2PA(pte: nat): nat
  {
    pte / 1024 * 4096
  }

  /** PTE_FLAGS */
  function Flags(pte: nat): nat
  {
    pte % 1024
  }

  /** PTE_V */
  predicate IsValid(pte: nat)
  {
    pte % 2 == 1
  }

  /** One of PTE_R, PTE_W, PTE_X */
  predicate IsLeaf(pte: nat)
  {
    IsValid(pte) && pte / 2 % 8 != 0
  }

  /** What vm_unmap accepts: a valid entry with some other flag. */
  predicate IsMapping(pte: nat)
  {
    IsValid(pte) && Flags(pte) != 1
  }

  /** PTE_U */
  predicate IsUser(pte: nat)
  {
    pte / 16 % 2 == 1
  }

  /** is_pagetable */
  predicate IsPageTable(pte: nat)
  {
    IsValid(pte) && pte / 2 % 8 == 0
  }

  /** PA2PTE(pa) | perm | PTE_V, for flags below 2^10. */
  function MakePte(pa: nat, perm: nat): nat
    requires perm < 1024
  {
    PA2PTE(pa) + (if perm % 2 == 1 then perm else perm + 1)
  }

  /** An entry made from an address and permissions gives back the page and the permissions. */
  lemma PteRoundTrip(pa: nat, perm: nat)
    requires perm < 1024
    ensures var w := MakePte(pa, perm);
      && w / 1024 == pa / 4096 && w % 1024 / 2 == perm / 2 && w % 2 == 1
      && IsValid(w) && PTE2PA(w) == pa - pa % PGSIZE && Flags(w) == (if perm % 2 == 1 then perm else perm + 1)
      && w / 2 % 8 == perm / 2 % 8 && (IsUser(w) <==> perm / 16 % 2 == 1)
  {
    var q, f := pa / 4096, if perm % 2 == 1 then perm else perm + 1;
    WordParts(q, f);
    assert f / 2 == perm / 2 && f / 16 == perm / 16;
  }

  lemma WordParts(q: nat, f: nat)
    requires f < 1024
    ensures var w := q * 1024 + f;
      w / 1024 == q && w % 1024 == f && w % 2 == f % 2 && w / 2 % 8 == f / 2 % 8 && w / 16 % 2 == f / 16 % 2
  {
    var w := q * 1024 + f;
    assert w / 1024 == q && w % 1024 == f;
    assert w / 2 == q * 512 + f / 2 && w / 16 == q * 64 + f / 16;
    Octets(q, f / 2);
    Pairs(q * 32, f / 16);
    Pairs(q * 512, f);
  }

  lemma Octets(q: nat, x: nat)
    ensures (q * 512 + x) % 8 == x % 8
  {
  }

  lemma Pairs(q: nat, x: nat)
    ensures (q * 2 + x) % 2 == x % 2
  {
  }

  /** What walk stores for a new table leads back to it. */
  lemma TablePte(page: nat)
    requires page % PGSIZE == 0
    ensures IsPageTable(PA2PTE(page) + 1) && PTE2PA(PA2PTE(page) + 1) == page
  {
  }

  // ---------------------------------------------------------------------------------------
  // Tables in memory

  /** Where a table stands in the tree of its root. */
  datatype Pos = Top(root: nat) | Mid(root: nat, i: nat) | Low(root: nat, i: nat, j: nat)

  type Tables = map<nat, seq<nat>>

  /** Which page holds the table at each position. */
  type Layout = map<Pos, nat>

  function Parent(p: Pos): Pos
  {
    if p.Low? then Mid(p.root, p.i) else Top(p.root)
  }

  /** The entry of the parent that leads to the table. */
  function Slot(p: Pos): nat
  {
    if p.Low? then p.j else if p.Mid? then p.i else 0
  }

  function Child(p: Pos, i: nat): Pos
  {
    if p.Top? then Mid(p.root, i) else Low(p.root, if p.Mid? then p.i else 0, i)
  }

  /** The position that leads to the entry for `va`, `level` steps above the leaves. */
  function PosOf(root: nat, va: nat, level: nat): Pos
    requires level <= 2
  {
    if level == 2 then Top(root) else if level == 1 then Mid(root, PX(2, va)) else Low(root, PX(2, va), PX(1, va))
  }

  predicate PageOk(ts: Tables, at: Layout, free: set<nat>, p: Pos)
    requires p in at
  {
    at[p] in ts && |ts[at[p]]| == ENTRIES && at[p] % PGSIZE == 0 && at[p] > 0 && at[p] !in free
  }

  /** The parent's entry leads here. */
  predicate LinkOk(ts: Tables, at: Layout, p: Pos)
    requires p in at
  {
    if p.Top? then at[p] == p.root
    else Parent(p) in at && at[Parent(p)] in ts && Slot(p) < |ts[at[Parent(p)]]|
         && ts[at[Parent(p)]][Slot(p)] == PA2PTE(at[p]) + 1
  }

  /** Valid entries of the upper levels lead to tables; those of the lowest level are valid or zero. */
  predicate KidsOk(ts: Tables, at: Layout, p: Pos)
    requires p in at && at[p] in ts
  {
    forall i :: 0 <= i < |ts[at[p]]| ==>
      if p.Low? then ts[at[p]][i] == 0 || IsValid(ts[at[p]][i])
      else IsValid(ts[at[p]][i]) ==> Child(p, i) in at
  }

  /** The tables form trees of three levels; no page has two places, and none is free. */
  ghost predicate Ok(ts: Tables, at: Layout, free: set<nat>)
  {
    && (forall p :: p in at ==> PageOk(ts, at, free, p) && LinkOk(ts, at, p) && KidsOk(ts, at, p))
    && (forall p, q :: p in at && q in at && at[p] == at[q] ==> p == q)
    && (forall f :: f in free ==> f % PGSIZE == 0 && f > 0)
  }

  /** The leaf entry for a page: zero if the tables do not reach that far. */
  function Leaf(ts: Tables, at: Layout, root: nat, va: nat): nat
  {
    var p := PosOf(root, va, 0);
    if p in at && at[p] in ts && PX(0, va) < |ts[at[p]]| then ts[at[p]][PX(0, va)] else 0
  }

  /** No leaf entry of the address space looks like one that leads to a table: all valid ones carry R, W
      or X. */
  ghost predicate LeavesOk(ts: Tables, at: Layout, root: nat)
  {
    forall va: nat :: va < SPACE ==> !IsPageTable(Leaf(ts, at, root, va))
  }

  /** Every entry of a table of the lowest level belongs to some address. */
  lemma EntryAddress(ts: Tables, at: Layout, free: set<nat>, p: Pos, k: nat) returns (va: nat)
    requires Ok(ts, at, free) && p in at && p.Low? && k < ENTRIES
    ensures va < SPACE && PosOf(p.root, va, 0) == p && PX(0, va) == k && at[p] in ts && |ts[at[p]]| == ENTRIES
    ensures Leaf(ts, at, p.root, va) == ts[at[p]][k]
  {
    TableHere(ts, at, free, p);
    TableHere(ts, at, free, Parent(p));
    assert PageOk(ts, at, free, Parent(Parent(p)));
    va := p.i * 0x4000_0000 + p.j * 0x20_0000 + k * 0x1000;
    AddressOf(p.i, p.j, k);
  }

  lemma AddressOf(i: nat, j: nat, k: nat)
    requires i < 512 && j < 512 && k < 512
    ensures var va := i * 0x4000_0000 + j * 0x20_0000 + k * 0x1000;
      va < SPACE && PX(2, va) == i && PX(1, va) == j && PX(0, va) == k
  {
    var v := i * 0x4_0000 + j * 512 + k;
    var va := v * 0x1000;
    BlockOf(i * 512 + j, k * 0x1000);
    Octal(i * 512 + j, k);
    Octal(i, j);
  }

  lemma BlockOf(q: nat, r: nat)
    requires r < 0x20_0000
    ensures (q * 0x20_0000 + r) / 0x20_0000 == q
  {
  }

  lemma Octal(q: nat, r: nat)
    requires r < 512
    ensures (q * 512 + r) % 512 == r
  {
  }

  /** The two memories mean the same. */
  ghost predicate SameLeaves(ts: Tables, at: Layout, ts': Tables, at': Layout)
  {
    forall r: nat, va: nat :: Leaf(ts', at', r, va) == Leaf(ts, at, r, va)
  }

  /** Different pages of the address space have different entries. */
  lemma PagesApart(a: nat, b: nat)
    requires a < SPACE && b < SPACE
    ensures PX(0, a) == PX(0, b) && PX(1, a) == PX(1, b) && PX(2, a) == PX(2, b) <==> a / PGSIZE == b / PGSIZE
  {
    Digits(a);
    Digits(b);
  }

  lemma Digits(a: nat)
    requires a < SPACE
    ensures a / PGSIZE == PX(2, a) * 0x4_0000 + PX(1, a) * 512 + PX(0, a)
  {
    var v := a / 0x1000;
    assert a / 0x20_0000 == v / 512 && a / 0x4000_0000 == v / 0x4_0000;
  }

  // ---------------------------------------------------------------------------------------
  // Adding a table

  function Zeros(): (r: seq<nat>)
    ensures |r| == ENTRIES && forall i :: 0 <= i < ENTRIES ==> r[i] == 0
  {
    seq(ENTRIES, _ => 0)
  }

  /** A fresh page becomes the table at `p`, empty, and its parent's entry leads to it. */
  function AddTable(ts: Tables, at: Layout, p: Pos, page: nat): Tables
    requires !p.Top? && Parent(p) in at && at[Parent(p)] in ts && Slot(p) < |ts[at[Parent(p)]]|
  {
    var t := at[Parent(p)];
    var entries: seq<nat> := ts[t][Slot(p) := PA2PTE(page) + 1];
    ts[page := Zeros()][t := entries]
  }

  lemma AddTableOk(ts: Tables, at: Layout, free: set<nat>, p: Pos, page: nat)
    requires Ok(ts, at, free) && !p.Top? && p !in at && Parent(p) in at && Slot(p) < ENTRIES && page in free
    requires (p.Mid? ==> p == Mid(p.root, Slot(p)))
    ensures at[Parent(p)] in ts && |ts[at[Parent(p)]]| == ENTRIES
    ensures Ok(AddTable(ts, at, p, page), at[p := page], free - {page})
  {
    assert PageOk(ts, at, free, Parent(p));
    var ts', at', free' := AddTable(ts, at, p, page), at[p := page], free - {page};
    TablePte(page);
    assert forall q :: q in at ==> at[q] != page by {
      forall q | q in at ensures at[q] != page { assert PageOk(ts, at, free, q); }
    }
    forall q | q in at' ensures PageOk(ts', at', free', q) && LinkOk(ts', at', q) && KidsOk(ts', at', q) {
      if q != p {
        assert PageOk(ts, at, free, q) && LinkOk(ts, at, q) && KidsOk(ts, at, q);
        if !q.Top? { SameParent(p, q); }
      }
    }
  }

  /** A position is known by its parent and its slot. */
  lemma SameParent(p: Pos, q: Pos)
    requires !p.Top? && !q.Top?
    ensures Parent(p) == Parent(q) && Slot(p) == Slot(q) ==> p == q
    ensures Child(Parent(p), Slot(p)) == p
  {
  }

  lemma AddTableLeaves(ts: Tables, at: Layout, free: set<nat>, p: Pos, page: nat)
    requires Ok(ts, at, free) && !p.Top? && p !in at && Parent(p) in at && Slot(p) < ENTRIES && page in free
    requires at[Parent(p)] in ts && |ts[at[Parent(p)]]| == ENTRIES
    ensures SameLeaves(ts, at, AddTable(ts, at, p, page), at[p := page])
  {
    var ts', at' := AddTable(ts, at, p, page), at[p := page];
    forall r: nat, va: nat ensures Leaf(ts', at', r, va) == Leaf(ts, at, r, va) {
      var q := PosOf(r, va, 0);
      if q in at {
        assert PageOk(ts, at, free, q) && PageOk(ts, at, free, Parent(p));
      }
    }
  }

  // ---------------------------------------------------------------------------------------
  // Setting a leaf

  function SetLeaf(ts: Tables, t: nat, k: nat, w: nat): Tables
    requires t in ts && k < |ts[t]|
  {
    var entries: seq<nat> := ts[t][k := w];
    ts[t := entries]
  }

  lemma SetLeafOk(ts: Tables, at: Layout, free: set<nat>, p: Pos, k: nat, w: nat)
    requires Ok(ts, at, free) && p.Low? && p in at && k < ENTRIES && (w == 0 || IsValid(w))
    ensures at[p] in ts && |ts[at[p]]| == ENTRIES && Ok(SetLeaf(ts, at[p], k, w), at, free)
  {
    assert PageOk(ts, at, free, p);
    var ts' := SetLeaf(ts, at[p], k, w);
    forall q | q in at ensures PageOk(ts', at, free, q) && LinkOk(ts', at, q) && KidsOk(ts', at, q) {
      assert PageOk(ts, at, free, q) && LinkOk(ts, at, q) && KidsOk(ts, at, q);
    }
  }

  /** Exactly one entry of the flat map changes. */
  lemma SetLeafLeaves(ts: Tables, at: Layout, free: set<nat>, root: nat, va: nat, w: nat)
    requires Ok(ts, at, free) && PosOf(root, va, 0) in at
    requires var t := at[PosOf(root, va, 0)]; t in ts && |ts[t]| == ENTRIES
    ensures var ts' := SetLeaf(ts, at[PosOf(root, va, 0)], PX(0, va), w);
      forall r: nat, a: nat :: Leaf(ts', at, r, a) ==
        if PosOf(r, a, 0) == PosOf(root, va, 0) && PX(0, a) == PX(0, va) then w else Leaf(ts, at, r, a)
  {
    var ts' := SetLeaf(ts, at[PosOf(root, va, 0)], PX(0, va), w);
    forall r: nat, a: nat ensures Leaf(ts', at, r, a) ==
        if PosOf(r, a, 0) == PosOf(root, va, 0) && PX(0, a) == PX(0, va) then w else Leaf(ts, at, r, a) {
      var q := PosOf(r, a, 0);
      if q in at { assert PageOk(ts, at, free, q); }
    }
  }

  // ---------------------------------------------------------------------------------------
  // Ranges of pages

  /** The first `n` pages from `va` on are mapped to those from `pa` on; everything else is as before. */
  ghost predicate MapsPages(ts: Tables, at: Layout, ts': Tables, at': Layout, root: nat, va: nat, pa: nat,
            perm: nat, n: nat)
    requires perm < 1024
  {
    forall r: nat, a: nat :: a < SPACE ==>
      Leaf(ts', at', r, a) ==
        if r == root && va / PGSIZE <= a / PGSIZE < va / PGSIZE + n then
          MakePte(pa + (a / PGSIZE - va / PGSIZE) * PGSIZE, perm)
        else Leaf(ts, at, r, a)
  }

  /** None of the first `n` pages from `va` on has an entry. */
  ghost predicate NothingThere(ts: Tables, at: Layout, root: nat, va: nat, n: nat)
  {
    forall b: nat :: b < SPACE && va / PGSIZE <= b / PGSIZE < va / PGSIZE + n ==> Leaf(ts, at, root, b) == 0
  }

  lemma OneMoreFree(ts: Tables, at: Layout, root: nat, va: nat, n: nat)
    requires va % PGSIZE == 0 && va + n * PGSIZE < SPACE && NothingThere(ts, at, root, va, n)
    requires Leaf(ts, at, root, va + n * PGSIZE) == 0
    ensures NothingThere(ts, at, root, va, n + 1)
  {
    assert (va + n * PGSIZE) / PGSIZE == va / PGSIZE + n;
    forall b: nat | b < SPACE && b / PGSIZE == va / PGSIZE + n ensures Leaf(ts, at, root, b) == 0 {
      PagesApart(b, va + n * PGSIZE);
    }
  }

  /** The first `n` pages from `va` on are unmapped; everything else is as before. */
  ghost predicate UnmapsPages(ts: Tables, at: Layout, ts': Tables, at': Layout, root: nat, va: nat, n: nat)
  {
    forall r: nat, a: nat :: a < SPACE ==>
      Leaf(ts', at', r, a) == if r == root && va / PGSIZE <= a / PGSIZE < va / PGSIZE + n then 0 else Leaf(ts, at, r, a)
  }

  lemma MapOneMore(ts: Tables, at: Layout, x: Tables, ax: Layout, ts': Tables, root: nat, va: nat, pa: nat,
            perm: nat, n: nat)
    requires perm < 1024 && va % PGSIZE == 0 && va + n * PGSIZE < SPACE
    requires MapsPages(ts, at, x, ax, root, va, pa, perm, n)
    requires var b := va + n * PGSIZE;
      forall r: nat, a: nat :: Leaf(ts', ax, r, a) ==
        if PosOf(r, a, 0) == PosOf(root, b, 0) && PX(0, a) == PX(0, b) then MakePte(pa + n * PGSIZE, perm)
          else Leaf(x, ax, r, a)
    ensures MapsPages(ts, at, ts', ax, root, va, pa, perm, n + 1)
  {
    var b := va + n * PGSIZE;
    assert b / PGSIZE == va / PGSIZE + n;
    forall r: nat, a: nat | a < SPACE ensures Leaf(ts', ax, r, a) ==
        if r == root && va / PGSIZE <= a / PGSIZE < va / PGSIZE + n + 1 then
          MakePte(pa + (a / PGSIZE - va / PGSIZE) * PGSIZE, perm)
        else Leaf(ts, at, r, a) {
      PagesApart(a, b);
      SamePos(r, a, root, b);
    }
  }

  lemma UnmapOneMore(ts: Tables, at: Layout, x: Tables, ts': Tables, root: nat, va: nat, n: nat)
    requires va % PGSIZE == 0 && va + n * PGSIZE < SPACE && UnmapsPages(ts, at, x, at, root, va, n)
    requires var b := va + n * PGSIZE;
      forall r: nat, a: nat :: Leaf(ts', at, r, a) ==
        if PosOf(r, a, 0) == PosOf(root, b, 0) && PX(0, a) == PX(0, b) then 0 else Leaf(x, at, r, a)
    ensures UnmapsPages(ts, at, ts', at, root, va, n + 1)
  {
    var b := va + n * PGSIZE;
    assert b / PGSIZE == va / PGSIZE + n;
    forall r: nat, a: nat | a < SPACE ensures Leaf(ts', at, r, a) ==
        if r == root && va / PGSIZE <= a / PGSIZE < va / PGSIZE + n + 1 then 0 else Leaf(ts, at, r, a) {
      PagesApart(a, b);
      SamePos(r, a, root, b);
    }
  }

  lemma SamePos(r: nat, a: nat, root: nat, b: nat)
    ensures PosOf(r, a, 0) == PosOf(root, b, 0) <==> r == root && PX(2, a) == PX(2, b) && PX(1, a) == PX(1, b)
  {
  }

  /** Walking a table only adds empty tables, so a range mapped stays mapped. */
  lemma MapsThenSame(ts: Tables, at: Layout, x: Tables, ax: Layout, ts': Tables, at': Layout, root: nat, va: nat,
            pa: nat, perm: nat, n: nat)
    requires perm < 1024 && MapsPages(ts, at, x, ax, root, va, pa, perm, n) && SameLeaves(x, ax, ts', at')
    ensures MapsPages(ts, at, ts', at', root, va, pa, perm, n)
  {
  }

  /** Unmapping the range just mapped gives the old flat map back, if nothing was mapped there. */
  lemma UnmapUndoesMap(ts: Tables, at: Layout, x: Tables, ax: Layout, ts': Tables, at': Layout,
                       root: nat, va: nat, pa: nat, perm: nat, n: nat, r: nat, a: nat)
    requires perm < 1024 && MapsPages(ts, at, x, ax, root, va, pa, perm, n) && UnmapsPages(x, ax, ts', at', root, va, n)
    requires NothingThere(ts, at, root, va, n) && a < SPACE
    ensures Leaf(ts', at', r, a) == Leaf(ts, at, r, a)
  {
    assert Leaf(ts', at', r, a) == if r == root && va / PGSIZE <= a / PGSIZE < va / PGSIZE + n then 0
      else Leaf(x, ax, r, a);
    assert Leaf(x, ax, r, a) == if r == root && va / PGSIZE <= a / PGSIZE < va / PGSIZE + n then
      MakePte(pa + (a / PGSIZE - va / PGSIZE) * PGSIZE, perm) else Leaf(ts, at, r, a);
  }

  // ---------------------------------------------------------------------------------------
  // Walking down

  lemma TableHere(ts: Tables, at: Layout, free: set<nat>, p: Pos)
    requires Ok(ts, at, free) && p in at
    ensures PageOk(ts, at, free, p) && LinkOk(ts, at, p) && KidsOk(ts, at, p)
  {
  }

  /** A valid entry on the way leads to the next table on the way. */
  lemma StepDown(ts: Tables, at: Layout, free: set<nat>, root: nat, va: nat, level: nat)
    requires Ok(ts, at, free) && 1 <= level <= 2 && PosOf(root, va, level) in at
    ensures var t := at[PosOf(root, va, level)];
      && t in ts && |ts[t]| == ENTRIES && t > 0 && t !in free
      && var w := ts[t][PX(level, va)];
         && (IsValid(w) <==> PosOf(root, va, level - 1) in at)
         && (IsValid(w) ==> PTE2PA(w) == at[PosOf(root, va, level - 1)])
  {
    var p, c := PosOf(root, va, level), PosOf(root, va, level - 1);
    TableHere(ts, at, free, p);
    assert c == Child(p, PX(level, va));
    if c in at {
      TableHere(ts, at, free, c);
      TablePte(at[c]);
    }
  }

  /** Above a table stand its parents. */
  lemma TableAbove(ts: Tables, at: Layout, free: set<nat>, root: nat, va: nat)
    requires Ok(ts, at, free)
    ensures PosOf(root, va, 0) in at ==> PosOf(root, va, 1) in at
    ensures PosOf(root, va, 1) in at ==> Top(root) in at
  {
    if PosOf(root, va, 0) in at { TableHere(ts, at, free, PosOf(root, va, 0)); }
    if PosOf(root, va, 1) in at { TableHere(ts, at, free, PosOf(root, va, 1)); }
  }

  // ---------------------------------------------------------------------------------------
  // Leaves

  /** Addresses from here on are refused by walkaddr. */
  const MAXVA: nat := 0x40_0000_0000

  /** walkaddr: the physical address of a user page's byte, or 0. */
  function Phys(ts: Tables, at: Layout, root: nat, va: nat): nat
  {
    var w := Leaf(ts, at, root, va);
    if va < MAXVA && IsValid(w) && IsUser(w) then PTE2PA(w) + va % PGSIZE else 0
  }

  /** The pages that `n` pages of the address space are mapped to. */
  function PagesOf(ts: Tables, at: Layout, root: nat, va: nat, n: nat): seq<nat>
  {
    if n == 0 then [] else PagesOf(ts, at, root, va, n - 1) + [PTE2PA(Leaf(ts, at, root, va + (n - 1) * PGSIZE))]
  }

  lemma LeafHere(ts: Tables, at: Layout, root: nat, va: nat)
    requires PosOf(root, va, 0) in at && at[PosOf(root, va, 0)] in ts && |ts[at[PosOf(root, va, 0)]]| == ENTRIES
    ensures PosOf(root, va, 0).Low? && Leaf(ts, at, root, va) == ts[at[PosOf(root, va, 0)]][PX(0, va)]
  {
  }

  lemma NoLeaf(ts: Tables, at: Layout, root: nat, va: nat)
    ensures PosOf(root, va, 0) !in at ==> Leaf(ts, at, root, va) == 0
    ensures !IsValid(0)
  {
  }

  lemma LeafOrZero(ts: Tables, at: Layout, free: set<nat>, root: nat, va: nat)
    requires Ok(ts, at, free) && PosOf(root, va, 0) in at
    ensures var w := Leaf(ts, at, root, va); w == 0 || IsValid(w)
  {
    TableHere(ts, at, free, PosOf(root, va, 0));
  }

  lemma LeafWord(pa: nat, perm: nat)
    requires perm < 1024
    ensures IsValid(MakePte(pa, perm)) && (IsMapping(MakePte(pa, perm)) <==> perm / 2 != 0)
  {
    PteRoundTrip(pa, perm);
  }

  lemma NothingMapped(ts: Tables, at: Layout, root: nat, va: nat, pa: nat, perm: nat)
    requires perm < 1024
    ensures MapsPages(ts, at, ts, at, root, va, pa, perm, 0)
  {
  }

  lemma NothingUnmapped(ts: Tables, at: Layout, root: nat, va: nat)
    ensures UnmapsPages(ts, at, ts, at, root, va, 0)
  {
  }

  /** The next page to map is still as it was. */
  lemma MapsAt(ts: Tables, at: Layout, x: Tables, ax: Layout, root: nat, va: nat, pa: nat, perm: nat, n: nat, v: nat)
    requires perm < 1024 && MapsPages(ts, at, x, ax, root, va, pa, perm, n) && v == va + n * PGSIZE && v < SPACE
    ensures Leaf(x, ax, root, v) == Leaf(ts, at, root, v)
  {
    assert v / PGSIZE == va / PGSIZE + n;
  }

  lemma UnmapsAt(ts: Tables, x: Tables, at: Layout, root: nat, va: nat, n: nat)
    requires UnmapsPages(ts, at, x, at, root, va, n) && va + n * PGSIZE < SPACE
    ensures Leaf(x, at, root, va + n * PGSIZE) == Leaf(ts, at, root, va + n * PGSIZE)
  {
    assert (va + n * PGSIZE) / PGSIZE == va / PGSIZE + n;
  }

  lemma PagesOfNext(ts: Tables, at: Layout, root: nat, va: nat, n: nat)
    ensures PagesOf(ts, at, root, va, 0) == []
    ensures PagesOf(ts, at, root, va, n + 1) ==
      PagesOf(ts, at, root, va, n) + [PTE2PA(Leaf(ts, at, root, va + n * PGSIZE))]
  {
  }
}
