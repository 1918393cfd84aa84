/** Regions and page tables together (copy_mmap and munmap in kernel/mmap.c): fork gives the child the
    parent's regions and shares its pages, and unmapping a region takes its pages away. */
module MmapCopy {
  import opened Common
  import opened RbShape
  import opened RbOrder
  import opened RbTree
  import opened Mmap
  import V = VmTables
  import Vm

  const PTE_W: nat := 4
  const PTE_U: nat := 16

  /** perm & mask: without the write permission for private regions. */
  function Masked(d: Data): nat
    requires d.MmapNode?
  {
    if HasFlag(d.flag, MAP_PRIVATE) && HasFlag(d.perm, PTE_W) then d.perm - PTE_W else d.perm
  }

  /** uvm_map: perm | PTE_U */
  function UserPerm(perm: nat): nat
  {
    WithFlag(perm, PTE_U)
  }

  /** The entry for a page that parent and child share. */
  function Shared(w: nat, d: Data): nat
    requires d.MmapNode? && UserPerm(Masked(d)) < 1024
  {
    V.MakePte(V.PTE2PA(w), UserPerm(Masked(d)))
  }

  /** A shared page of a private region cannot be written, and it is the page the parent had. */
  lemma SharedIsReadOnly(w: nat, d: Data)
    requires d.MmapNode? && UserPerm(Masked(d)) < 1024
    ensures V.IsValid(Shared(w, d)) && V.PTE2PA(Shared(w, d)) == V.PTE2PA(w)
    ensures HasFlag(d.flag, MAP_PRIVATE) ==> !HasFlag(Shared(w, d), PTE_W)
  {
    hide V.MakePte; hide UserPerm; hide Masked; hide HasFlag; hide V.IsValid;
    var perm := UserPerm(Masked(d));
    PageStart(w);
    V.PteRoundTrip(V.PTE2PA(w), perm);
    MaskClears(d);
    WriteBit(V.PTE2PA(w), perm);
  }

  /** fork keeps the leaves of a region leaves exactly if the region stays readable or executable. */
  lemma SharedIsLeaf(w: nat, d: Data)
    requires d.MmapNode? && UserPerm(Masked(d)) < 1024
    ensures V.IsLeaf(Shared(w, d)) <==> PermOk(d)
    ensures V.IsPageTable(Shared(w, d)) <==> !PermOk(d)
  {
    hide V.MakePte; hide UserPerm; hide Masked;
    V.PteRoundTrip(V.PTE2PA(w), UserPerm(Masked(d)));
  }

  /** A private region with the write permission alone: after fork is_pagetable takes its pages for
      tables. */
  lemma WriteOnlyMisread(w: nat, addr: nat, sz: nat)
    ensures var d := MmapNode(addr, sz, PTE_W, MAP_PRIVATE);
      UserPerm(Masked(d)) < 1024 && !PermOk(d) && V.IsPageTable(Shared(w, d))
  {
    SharedIsLeaf(w, MmapNode(addr, sz, PTE_W, MAP_PRIVATE));
  }

  /** The entry that fork leaves for a page of a region, bit by bit: the page of the old one, valid and for
      the user; R, X and the upper flags as the region has them; W as well, unless the region is private. */
  predicate Inherits(e: nat, w: nat, d: Data)
    requires d.MmapNode?
  {
    && e / 1024 == w / 1024 && e % 2 == 1 && e / 16 % 2 == 1
    && e / 2 % 2 == d.perm / 2 % 2 && e / 8 % 2 == d.perm / 8 % 2 && e / 32 % 32 == d.perm / 32
    && e / 4 % 2 == (if d.flag / 2 % 2 == 1 then 0 else d.perm / 4 % 2)
  }

  lemma SharedBits(w: nat, d: Data)
    requires d.MmapNode? && UserPerm(Masked(d)) < 1024
    ensures Inherits(Shared(w, d), w, d)
  {
    var perm, m := UserPerm(Masked(d)), Masked(d);
    var q, f := V.PTE2PA(w) / 4096, if perm % 2 == 1 then perm else perm + 1;
    Bits(q, f);
    MaskedBits(d.perm, m);
    UserBits(m, perm);
    ValidBits(perm, f);
    SharedPage(w, d);
  }

  /** Bits 1, 2, 4, 8 and 16 and those from 32 on, of a number above which others stand. */
  lemma Bits(q: nat, f: nat)
    requires f < 1024
    ensures var e := q * 1024 + f;
      && e % 2 == f % 2 && e / 2 % 2 == f / 2 % 2 && e / 4 % 2 == f / 4 % 2 && e / 8 % 2 == f / 8 % 2
      && e / 16 % 2 == f / 16 % 2 && e / 32 % 32 == f / 32
  {
    var e := q * 1024 + f;
    assert e / 2 == q * 512 + f / 2 && e / 4 == q * 256 + f / 4 && e / 8 == q * 128 + f / 8;
    assert e / 16 == q * 64 + f / 16 && e / 32 == q * 32 + f / 32;
    V.Pairs(q * 512, f);
    V.Pairs(q * 256, f / 2);
    V.Pairs(q * 128, f / 4);
    V.Pairs(q * 64, f / 8);
    V.Pairs(q * 32, f / 16);
    UpperFlags(q, f / 32);
  }

  lemma UpperFlags(q: nat, x: nat)
    requires x < 32
    ensures (q * 32 + x) % 32 == x
  {
  }

  /** Halving step by step. */
  lemma Halves(x: nat)
    ensures x / 4 == x / 2 / 2 && x / 8 == x / 4 / 2 && x / 16 == x / 8 / 2 && x / 32 == x / 16 / 2
  {
  }

  lemma MaskedBits(perm: nat, m: nat)
    requires m == perm || (perm / 4 % 2 == 1 && m == perm - 4)
    ensures m / 2 % 2 == perm / 2 % 2 && m / 8 % 2 == perm / 8 % 2 && m / 32 == perm / 32
    ensures m / 4 % 2 == if m == perm then perm / 4 % 2 else 0
  {
    Halves(perm);
    Halves(m);
    if m != perm {
      assert m / 2 == perm / 2 - 2 && m / 4 == perm / 4 - 1;
      OddHalf(perm / 4);
    }
  }

  lemma OddHalf(x: nat)
    requires x % 2 == 1
    ensures (x - 1) / 2 == x / 2 && (x - 1) % 2 == 0
  {
  }

  lemma EvenHalf(x: nat)
    requires x % 2 == 0
    ensures (x + 1) / 2 == x / 2 && (x + 1) % 2 == 1
  {
  }

  lemma UserBits(m: nat, perm: nat)
    requires perm == if m / 16 % 2 == 1 then m else m + 16
    ensures perm / 16 % 2 == 1 && perm / 32 == m / 32
    ensures perm / 2 % 2 == m / 2 % 2 && perm / 4 % 2 == m / 4 % 2 && perm / 8 % 2 == m / 8 % 2
  {
    Halves(m);
    Halves(perm);
    if m / 16 % 2 != 1 {
      assert perm / 2 == m / 2 + 8 && perm / 4 == m / 4 + 4 && perm / 8 == m / 8 + 2 && perm / 16 == m / 16 + 1;
      EvenHalf(m / 16);
      V.Pairs(4, m / 2);
      V.Pairs(2, m / 4);
      V.Pairs(1, m / 8);
    }
  }

  lemma ValidBits(perm: nat, f: nat)
    requires f == if perm % 2 == 1 then perm else perm + 1
    ensures f % 2 == 1 && f / 2 == perm / 2 && f / 4 == perm / 4 && f / 8 == perm / 8 && f / 16 == perm / 16
    ensures f / 32 == perm / 32
  {
  }

  lemma PageStart(w: nat)
    ensures V.PTE2PA(w) % PGSIZE == 0
  {
  }

  lemma MaskClears(d: Data)
    requires d.MmapNode?
    ensures HasFlag(d.flag, MAP_PRIVATE) ==> !HasFlag(Masked(d), PTE_W) && !HasFlag(UserPerm(Masked(d)), PTE_W)
  {
  }

  lemma FourthPart(q: nat, f: nat)
    ensures (q * 1024 + f) / 4 == q * 256 + f / 4
  {
  }

  lemma LowBit(perm: nat)
    ensures perm % 2 == 0 ==> (perm + 1) / 4 == perm / 4
  {
  }

  lemma WriteBit(pa: nat, perm: nat)
    requires perm < 1024
    ensures HasFlag(V.MakePte(pa, perm), PTE_W) == HasFlag(perm, PTE_W)
  {
    var q, f := pa / 4096, if perm % 2 == 1 then perm else perm + 1;
    FourthPart(q, f);
    V.Pairs(q * 128, f / 4);
    assert V.MakePte(pa, perm) == q * 1024 + f;
    LowBit(perm);
  }

  /** Regions as mmap leaves them, inside the address space, with permissions that fit into the flags of an
      entry. */
  ghost predicate Copyable(rs: seq<Data>)
  {
    && RegionsOk(rs)
    && (forall i :: 0 <= i < |rs| ==> rs[i].addr + rs[i].sz <= V.SPACE)
    && (forall i :: 0 <= i < |rs| ==> UserPerm(Masked(rs[i])) < 1024)
  }

  /** Still readable or executable once the write permission has gone. */
  predicate PermOk(d: Data)
  {
    d.MmapNode? && UserPerm(Masked(d)) / 2 % 8 != 0
  }

  // ---------------------------------------------------------------------------------------
  // Pages of the address space, by number

  const PAGES: nat := 0x800_0000

  /** The leaf entry for the `p`th page. */
  function Entry(ts: V.Tables, at: V.Layout, r: nat, p: nat): nat
  {
    V.Leaf(ts, at, r, p * PGSIZE)
  }

  ghost predicate HasPage(rs: seq<Data>, k: nat, p: nat)
  {
    k < |rs| && Covers(rs[k], p * PGSIZE)
  }

  /** The `p`th page is present. */
  predicate Present(ts: V.Tables, at: V.Layout, r: nat, p: nat)
  {
    p < PAGES && V.IsValid(Entry(ts, at, r, p))
  }

  /** The region that contains the page. */
  ghost function RegionAt(rs: seq<Data>, p: nat): (k: nat)
    ensures (exists i: nat :: HasPage(rs, i, p)) <==> HasPage(rs, k, p)
    ensures !HasPage(rs, k, p) ==> k == |rs|
  {
    if exists i: nat :: HasPage(rs, i, p) then
      var i: nat :| HasPage(rs, i, p);
      i
    else |rs|
  }

  /** All addresses of a page have the entry of the page. */
  lemma LeafIsEntry(ts: V.Tables, at: V.Layout, r: nat, a: nat)
    requires a < V.SPACE
    ensures a / PGSIZE < PAGES && V.Leaf(ts, at, r, a) == Entry(ts, at, r, a / PGSIZE)
  {
    V.PagesApart(a, a / PGSIZE * PGSIZE);
  }

  // ---------------------------------------------------------------------------------------
  // What fork's copy does to the tables

  /** The present pages of the parent's regions have the shared entry in both trees; every other entry of
      every tree is as before. */
  ghost predicate Forked(ts0: V.Tables, at0: V.Layout, ts: V.Tables, at: V.Layout, parent: nat, child: nat,
            rs: seq<Data>)
    requires Copyable(rs)
  {
    forall r: nat, p: nat :: p < PAGES ==>
      Entry(ts, at, r, p) ==
        if (r == parent || r == child) && HasPage(rs, RegionAt(rs, p), p) && Present(ts0, at0, parent, p)
        then Shared(Entry(ts0, at0, parent, p), rs[RegionAt(rs, p)])
        else Entry(ts0, at0, r, p)
  }

  /** The child has a page already where the parent has one in a region. */
  ghost predicate Clash(ts0: V.Tables, at0: V.Layout, parent: nat, child: nat, rs: seq<Data>)
  {
    exists k: nat, p: nat :: HasPage(rs, k, p) && Present(ts0, at0, parent, p) && Present(ts0, at0, child, p)
  }

  /** A present page lies in two regions. */
  ghost predicate Doubled(ts0: V.Tables, at0: V.Layout, parent: nat, rs: seq<Data>)
  {
    exists i: nat, j: nat, p: nat :: i < j && HasPage(rs, i, p) && HasPage(rs, j, p) && Present(ts0, at0, parent, p)
  }

  /** Every region with a present page stays readable or executable. */
  ghost predicate PermsOk(ts0: V.Tables, at0: V.Layout, parent: nat, rs: seq<Data>)
  {
    forall k: nat, p: nat :: HasPage(rs, k, p) && Present(ts0, at0, parent, p) ==> PermOk(rs[k])
  }

  /** After the copy the parent's tables are well formed, and likewise the child's, exactly if no region with a
      present page loses its last permission; otherwise is_pagetable takes a page of data for a table. */
  lemma ForkWellFormed(ts0: V.Tables, at0: V.Layout, ts: V.Tables, at: V.Layout, parent: nat, child: nat,
            rs: seq<Data>)
    requires Copyable(rs) && Forked(ts0, at0, ts, at, parent, child, rs) && !Doubled(ts0, at0, parent, rs)
    requires V.LeavesOk(ts0, at0, parent) && V.LeavesOk(ts0, at0, child)
    ensures V.LeavesOk(ts, at, parent) <==> PermsOk(ts0, at0, parent, rs)
    ensures V.LeavesOk(ts, at, child) <==> PermsOk(ts0, at0, parent, rs)
  {
    WellFormedTree(ts0, at0, ts, at, parent, child, rs, parent);
    WellFormedTree(ts0, at0, ts, at, parent, child, rs, child);
  }

  lemma WellFormedTree(ts0: V.Tables, at0: V.Layout, ts: V.Tables, at: V.Layout, parent: nat, child: nat,
            rs: seq<Data>, r: nat)
    requires Copyable(rs) && Forked(ts0, at0, ts, at, parent, child, rs) && !Doubled(ts0, at0, parent, rs)
    requires (r == parent || r == child) && V.LeavesOk(ts0, at0, r)
    ensures V.LeavesOk(ts, at, r) <==> PermsOk(ts0, at0, parent, rs)
  {
    hide Entry; hide V.Leaf; hide V.IsPageTable; hide Shared; hide PermOk; hide Covers;
    hide UserPerm; hide Masked; hide V.IsValid;
    if PermsOk(ts0, at0, parent, rs) {
      forall a: nat | a < V.SPACE ensures !V.IsPageTable(V.Leaf(ts, at, r, a)) {
        var p := a / PGSIZE;
        LeafIsEntry(ts, at, r, a);
        LeafIsEntry(ts0, at0, r, a);
        var k := RegionAt(rs, p);
        if HasPage(rs, k, p) && Present(ts0, at0, parent, p) {
          SharedIsLeaf(Entry(ts0, at0, parent, p), rs[k]);
        }
      }
    }
    if V.LeavesOk(ts, at, r) {
      forall k: nat, p: nat | HasPage(rs, k, p) && Present(ts0, at0, parent, p) ensures PermOk(rs[k]) {
        OneRegion(ts0, at0, parent, rs, k, p);
        EntryIsLeaf(ts, at, r, p);
        SharedIsLeaf(Entry(ts0, at0, parent, p), rs[k]);
      }
    }
  }

  lemma EntryIsLeaf(ts: V.Tables, at: V.Layout, r: nat, p: nat)
    requires p < PAGES
    ensures p * PGSIZE < V.SPACE && V.Leaf(ts, at, r, p * PGSIZE) == Entry(ts, at, r, p)
  {
  }

  lemma OneRegion(ts0: V.Tables, at0: V.Layout, parent: nat, rs: seq<Data>, k: nat, p: nat)
    requires !Doubled(ts0, at0, parent, rs) && HasPage(rs, k, p) && Present(ts0, at0, parent, p)
    ensures RegionAt(rs, p) == k
  {
    var i := RegionAt(rs, p);
    hide Present; hide Covers;
    assert HasPage(rs, i, p);
  }

  // ---------------------------------------------------------------------------------------
  // The copy under way

  /** Which region each page shared so far was found in. */
  type Owners = map<nat, nat>

  /** Before the `m`th page in the `k`th region. */
  ghost predicate Reached(rs: seq<Data>, k: nat, m: nat, i: nat, p: nat)
  {
    HasPage(rs, i, p) && (i < k || (i == k && p < m))
  }

  /** The owners are those of the present pages reached so far, each in one region only, and in the child there
      was nothing in their place. */
  ghost predicate OwnersOk(ts0: V.Tables, at0: V.Layout, parent: nat, child: nat, rs: seq<Data>, who: Owners, k: nat,
            m: nat)
  {
    && (forall p :: p in who ==> who[p] < |rs|)
    && (forall p :: p in who ==> Reached(rs, k, m, who[p], p))
    && (forall p :: p in who ==> Present(ts0, at0, parent, p) && !Present(ts0, at0, child, p))
    && (forall i: nat, p: nat :: Reached(rs, k, m, i, p) && Present(ts0, at0, parent, p) ==> p in who && who[p] == i)
  }

  ghost predicate SharedBy(ts0: V.Tables, at0: V.Layout, ts: V.Tables, at: V.Layout, parent: nat, child: nat,
            rs: seq<Data>, who: Owners)
    requires Copyable(rs) && forall p :: p in who ==> who[p] < |rs|
  {
    forall r: nat, p: nat :: p < PAGES ==>
      Entry(ts, at, r, p) ==
        if (r == parent || r == child) && p in who then Shared(Entry(ts0, at0, parent, p), rs[who[p]])
        else Entry(ts0, at0, r, p)
  }

  ghost predicate Copying(ts0: V.Tables, at0: V.Layout, ts: V.Tables, at: V.Layout, parent: nat, child: nat,
            rs: seq<Data>, who: Owners, k: nat, m: nat)
    requires Copyable(rs)
  {
    OwnersOk(ts0, at0, parent, child, rs, who, k, m) && SharedBy(ts0, at0, ts, at, parent, child, rs, who)
  }

  lemma CopyStarts(ts0: V.Tables, at0: V.Layout, parent: nat, child: nat, rs: seq<Data>)
    requires Copyable(rs)
    ensures Copying(ts0, at0, ts0, at0, parent, child, rs, map[], 0, 0)
  {
  }

  /** A region begins at its first page and ends with its last one. */
  lemma RegionBegins(ts0: V.Tables, at0: V.Layout, ts: V.Tables, at: V.Layout, parent: nat, child: nat, rs: seq<Data>,
            who: Owners, k: nat)
    requires Copyable(rs) && k < |rs| && Copying(ts0, at0, ts, at, parent, child, rs, who, k, 0)
    ensures Copying(ts0, at0, ts, at, parent, child, rs, who, k, rs[k].addr / PGSIZE)
  {
    EdgesOf(rs, k, rs[k].addr / PGSIZE, (rs[k].addr + rs[k].sz) / PGSIZE, k + 1);
    SameReached(ts0, at0, parent, child, rs, who, k, 0, k, rs[k].addr / PGSIZE);
  }

  lemma EdgesOf(rs: seq<Data>, k: nat, m: nat, n: nat, next: nat)
    requires RegionsOk(rs) && k < |rs|
    requires m == rs[k].addr / PGSIZE && n == (rs[k].addr + rs[k].sz) / PGSIZE && next == k + 1
    ensures forall i: nat, p: nat :: Reached(rs, k, m, i, p) == Reached(rs, k, 0, i, p)
    ensures forall i: nat, p: nat :: Reached(rs, k, n, i, p) == Reached(rs, next, 0, i, p)
  {
  }

  /** The owners stay in order as long as no present page is reached. */
  lemma SameReached(ts0: V.Tables, at0: V.Layout, parent: nat, child: nat, rs: seq<Data>, who: Owners, k: nat, m: nat,
            k': nat, m': nat)
    requires OwnersOk(ts0, at0, parent, child, rs, who, k, m)
    requires forall i: nat, p: nat :: Present(ts0, at0, parent, p) ==>
      Reached(rs, k', m', i, p) == Reached(rs, k, m, i, p)
    ensures OwnersOk(ts0, at0, parent, child, rs, who, k', m')
  {
    hide Reached; hide Present;
  }

  lemma RegionEnds(ts0: V.Tables, at0: V.Layout, ts: V.Tables, at: V.Layout, parent: nat, child: nat, rs: seq<Data>,
            who: Owners, k: nat)
    requires Copyable(rs) && k < |rs|
    requires Copying(ts0, at0, ts, at, parent, child, rs, who, k, (rs[k].addr + rs[k].sz) / PGSIZE)
    ensures Copying(ts0, at0, ts, at, parent, child, rs, who, k + 1, 0)
  {
    EdgesOf(rs, k, rs[k].addr / PGSIZE, (rs[k].addr + rs[k].sz) / PGSIZE, k + 1);
    SameReached(ts0, at0, parent, child, rs, who, k, (rs[k].addr + rs[k].sz) / PGSIZE, k + 1, 0);
  }

  /** A page that is not present in the parent is skipped. */
  lemma SkipPage(ts0: V.Tables, at0: V.Layout, ts: V.Tables, at: V.Layout, parent: nat, child: nat, rs: seq<Data>,
            who: Owners, k: nat, p: nat)
    requires Copyable(rs) && Copying(ts0, at0, ts, at, parent, child, rs, who, k, p)
    requires !Present(ts0, at0, parent, p)
    ensures Copying(ts0, at0, ts, at, parent, child, rs, who, k, p + 1)
  {
    hide Present; hide HasPage;
    SameReached(ts0, at0, parent, child, rs, who, k, p, k, p + 1);
  }

  /** Remapping in the parent hides no page and shows none. */
  lemma EntryNow(ts0: V.Tables, at0: V.Layout, ts: V.Tables, at: V.Layout, parent: nat, child: nat, rs: seq<Data>,
            who: Owners, k: nat, p: nat)
    requires Copyable(rs) && Copying(ts0, at0, ts, at, parent, child, rs, who, k, p) && p < PAGES
    ensures var w := Entry(ts, at, parent, p);
      && (V.IsValid(w) <==> Present(ts0, at0, parent, p))
      && V.PTE2PA(w) == V.PTE2PA(Entry(ts0, at0, parent, p))
    ensures V.IsValid(Entry(ts, at, child, p)) <==> p in who || Present(ts0, at0, child, p)
  {
    hide Entry; hide Reached; hide V.PTE2PA; hide V.IsValid; hide Shared; hide UserPerm; hide Masked;
    if p in who { SharedIsReadOnly(Entry(ts0, at0, parent, p), rs[who[p]]); }
  }

  /** A page in the way of the child's mapping was there before or lies in an earlier region as well. */
  lemma InTheWay(ts0: V.Tables, at0: V.Layout, ts: V.Tables, at: V.Layout, parent: nat, child: nat, rs: seq<Data>,
            who: Owners, k: nat, p: nat)
    requires Copyable(rs) && Copying(ts0, at0, ts, at, parent, child, rs, who, k, p) && HasPage(rs, k, p)
    requires Present(ts0, at0, parent, p) && V.IsValid(Entry(ts, at, child, p))
    ensures Clash(ts0, at0, parent, child, rs) || Doubled(ts0, at0, parent, rs)
  {
    hide Entry; hide V.IsValid; hide RegionsOk;
    EntryNow(ts0, at0, ts, at, parent, child, rs, who, k, p);
    if p in who { assert who[p] < k && HasPage(rs, who[p], p); }
  }

  /** One page mapped, in terms of entries. */
  lemma OneMapped(ts: V.Tables, at: V.Layout, ts': V.Tables, at': V.Layout, root: nat, p: nat, pa: nat, perm: nat,
            r: nat, q: nat)
    requires perm < 1024 && V.MapsPages(ts, at, ts', at', root, p * PGSIZE, pa, perm, 1) && q < PAGES
    ensures Entry(ts', at', r, q) == if r == root && q == p then V.MakePte(pa, perm) else Entry(ts, at, r, q)
  {
    hide V.Leaf; hide V.MakePte;
    assert q * PGSIZE / PGSIZE == q && p * PGSIZE / PGSIZE == p && q * PGSIZE < V.SPACE;
  }

  /** A present page is mapped again in the parent, and to the same memory in the child. */
  lemma SharePage(ts0: V.Tables, at0: V.Layout, x: V.Tables, ax: V.Layout, y: V.Tables, ay: V.Layout, z: V.Tables,
            az: V.Layout, parent: nat, child: nat, rs: seq<Data>, who: Owners, k: nat, p: nat, pa: nat, perm: nat)
    requires Copyable(rs) && Copying(ts0, at0, x, ax, parent, child, rs, who, k, p) && parent != child
    requires HasPage(rs, k, p) && Present(ts0, at0, parent, p) && !V.IsValid(Entry(x, ax, child, p))
    requires pa == V.PTE2PA(Entry(ts0, at0, parent, p)) && perm == UserPerm(Masked(rs[k]))
    requires V.MapsPages(x, ax, y, ay, parent, p * PGSIZE, pa, perm, 1)
    requires V.MapsPages(y, ay, z, az, child, p * PGSIZE, pa, perm, 1)
    ensures Copying(ts0, at0, z, az, parent, child, rs, who[p := k], k, p + 1)
  {
    EntryNow(ts0, at0, x, ax, parent, child, rs, who, k, p);
    NextOwner(ts0, at0, parent, child, rs, who, k, p, p + 1);
    hide Entry; hide OwnersOk; hide V.MapsPages; hide V.PTE2PA; hide V.IsValid; hide V.MakePte; hide Reached;
    hide RegionsOk; hide UserPerm; hide Masked; hide Covers;
    forall r: nat, q: nat | q < PAGES
      ensures Entry(z, az, r, q) ==
        if (r == parent || r == child) && q in who[p := k] then Shared(Entry(ts0, at0, parent, q), rs[who[p := k][q]])
        else Entry(ts0, at0, r, q) {
      OneMapped(x, ax, y, ay, parent, p, pa, perm, r, q);
      OneMapped(y, ay, z, az, child, p, pa, perm, r, q);
    }
  }

  lemma NextOwner(ts0: V.Tables, at0: V.Layout, parent: nat, child: nat, rs: seq<Data>, who: Owners, k: nat, p: nat,
            m: nat)
    requires OwnersOk(ts0, at0, parent, child, rs, who, k, p) && p !in who && HasPage(rs, k, p)
    requires Present(ts0, at0, parent, p) && !Present(ts0, at0, child, p) && m == p + 1
    ensures OwnersOk(ts0, at0, parent, child, rs, who[p := k], k, m)
  {
    hide Present; hide Covers;
    forall i: nat, q: nat | q != p || i < k ensures Reached(rs, k, m, i, q) == Reached(rs, k, p, i, q) {}
    var who' := who[p := k];
    forall q | q in who' ensures who'[q] < |rs| && Reached(rs, k, m, who'[q], q) {}
    forall q | q in who' ensures Present(ts0, at0, parent, q) && !Present(ts0, at0, child, q) {}
    forall i: nat, q: nat | Reached(rs, k, m, i, q) && Present(ts0, at0, parent, q) ensures q in who' && who'[q] == i {
    }
  }

  /** With all regions done, no page is in two of them and none was in the way. */
  lemma CopyEnds(ts0: V.Tables, at0: V.Layout, ts: V.Tables, at: V.Layout, parent: nat, child: nat, rs: seq<Data>,
            who: Owners)
    requires Copyable(rs) && Copying(ts0, at0, ts, at, parent, child, rs, who, |rs|, 0)
    ensures Forked(ts0, at0, ts, at, parent, child, rs)
    ensures !Clash(ts0, at0, parent, child, rs) && !Doubled(ts0, at0, parent, rs)
  {
    hide Entry; hide Present; hide Covers; hide RegionsOk; hide Shared; hide UserPerm; hide Masked;
    forall i: nat, p: nat | HasPage(rs, i, p) ensures Reached(rs, |rs|, 0, i, p) {}
    forall p: nat | p < PAGES
      ensures p in who <==> HasPage(rs, RegionAt(rs, p), p) && Present(ts0, at0, parent, p)
      ensures p in who ==> who[p] == RegionAt(rs, p) {
      if p in who { assert HasPage(rs, who[p], p); }
    }
  }

  /** What a page of a region gives the calls of uvm_map. */
  lemma PageFits(rs: seq<Data>, k: nat, p: nat)
    requires Copyable(rs) && HasPage(rs, k, p)
    ensures p < PAGES && p * PGSIZE + PGSIZE <= rs[k].addr + rs[k].sz <= V.SPACE
    ensures rs[k].MmapNode? && UserPerm(Masked(rs[k])) < 1024
    ensures p * PGSIZE % PGSIZE == 0 && (p * PGSIZE + PGSIZE - 1) / PGSIZE - p * PGSIZE / PGSIZE + 1 == 1
  {
  }

  /** The body of copy_mmap's inner loop; `ok` is false where it panics. */
  method CopyPage(vm: Vm.PageTables, rt: nat, rn: nat, d: Data, va: nat, ghost p: nat, ghost ts0: V.Tables,
            ghost at0: V.Layout, ghost rs: seq<Data>, ghost k: nat, ghost who: Owners)
    returns (ok: bool, ghost who': Owners)
    requires vm.Valid() && V.Top(rt) in vm.at && V.Top(rn) in vm.at && rt != rn
    requires Copyable(rs) && HasPage(rs, k, p) && rs[k] == d && va == p * PGSIZE
    requires Copying(ts0, at0, vm.tables, vm.at, rt, rn, rs, who, k, p)
    modifies vm`tables, vm`free, vm`at
    ensures vm.Valid() && V.Top(rt) in vm.at && V.Top(rn) in vm.at
    ensures ok ==> Copying(ts0, at0, vm.tables, vm.at, rt, rn, rs, who', k, p + 1)
    ensures !ok ==> vm.free == {} || Clash(ts0, at0, rt, rn, rs) || Doubled(ts0, at0, rt, rs)
  {
    hide V.Ok; hide V.Leaf; hide V.MapsPages; hide V.SameLeaves; hide V.PosOf; hide V.PX; hide V.IsValid;
    hide V.NothingThere; hide Copying; hide Copyable; hide UserPerm; hide Masked; hide V.PTE2PA; hide Clash;
    hide Doubled; hide HasPage; hide Present;
    who' := who;
    PageFits(rs, k, p);
    EntryNow(ts0, at0, vm.tables, vm.at, rt, rn, rs, who, k, p);
    V.NoLeaf(vm.tables, vm.at, rt, va);
    var t, i := vm.Walk(rt, va, false);
    if t == 0 {
      SkipPage(ts0, at0, vm.tables, vm.at, rt, rn, rs, who, k, p);
      return true, who';
    }
    V.LeafHere(vm.tables, vm.at, rt, va);
    if !V.IsValid(vm.tables[t][i]) {
      SkipPage(ts0, at0, vm.tables, vm.at, rt, rn, rs, who, k, p);
      return true, who';
    }
    var pa, perm := V.PTE2PA(vm.tables[t][i]), UserPerm(Masked(d));
    ghost var n;
    var r;
    ghost var x, ax := vm.tables, vm.at;
    r, n := vm.Map(rt, va, pa, PGSIZE, perm, true);
    if !r.Done? {
      return false, who';
    }
    ghost var y, ay := vm.tables, vm.at;
    OneMapped(x, ax, y, ay, rt, p, pa, perm, rn, p);
    r, n := vm.Map(rn, va, pa, PGSIZE, perm, false);
    if !r.Done? {
      if r.Panic? {
        assert n == 0;
        InTheWay(ts0, at0, x, ax, rt, rn, rs, who, k, p);
      }
      return false, who';
    }
    NothingBefore(y, ay, rn, va);
    SharePage(ts0, at0, x, ax, y, ay, vm.tables, vm.at, rt, rn, rs, who, k, p, pa, perm);
    return true, who[p := k];
  }

  lemma NothingBefore(ts: V.Tables, at: V.Layout, root: nat, va: nat)
    requires V.NothingThere(ts, at, root, va, 1) && va < V.SPACE
    ensures !V.IsValid(V.Leaf(ts, at, root, va))
  {
    hide V.Leaf;
    assert V.Leaf(ts, at, root, va) == 0;
  }

  /** copy_mmap's inner loop, over the pages of one region. */
  method CopyPages(vm: Vm.PageTables, rt: nat, rn: nat, d: Data, ghost ts0: V.Tables, ghost at0: V.Layout,
            ghost rs: seq<Data>, ghost k: nat, ghost who: Owners)
    returns (ok: bool, ghost who': Owners)
    requires vm.Valid() && V.Top(rt) in vm.at && V.Top(rn) in vm.at && rt != rn
    requires Copyable(rs) && k < |rs| && rs[k] == d && d.MmapNode?
    requires Copying(ts0, at0, vm.tables, vm.at, rt, rn, rs, who, k, 0)
    modifies vm`tables, vm`free, vm`at
    ensures vm.Valid() && V.Top(rt) in vm.at && V.Top(rn) in vm.at
    ensures ok ==> Copying(ts0, at0, vm.tables, vm.at, rt, rn, rs, who', k + 1, 0)
    ensures !ok ==> vm.free == {} || Clash(ts0, at0, rt, rn, rs) || Doubled(ts0, at0, rt, rs)
  {
    hide V.Ok; hide Copying; hide Copyable; hide Clash; hide Doubled; hide HasPage;
    NextRegionFacts(rs, k);
    RegionBegins(ts0, at0, vm.tables, vm.at, rt, rn, rs, who, k);
    ghost var p := d.addr / PGSIZE;
    var va := d.addr;
    ok, who' := true, who;
    while va < d.addr + d.sz
      invariant d.addr <= va <= d.addr + d.sz && va == p * PGSIZE
      invariant vm.Valid() && V.Top(rt) in vm.at && V.Top(rn) in vm.at
      invariant Copying(ts0, at0, vm.tables, vm.at, rt, rn, rs, who', k, p)
      decreases d.addr + d.sz - va
    {
      InRegion(rs, k, p);
      ok, who' := CopyPage(vm, rt, rn, d, va, p, ts0, at0, rs, k, who');
      if !ok {
        return;
      }
      va := va + PGSIZE;
      p := p + 1;
    }
    RegionEnds(ts0, at0, vm.tables, vm.at, rt, rn, rs, who', k);
    ok := true;
  }

  lemma InRegion(rs: seq<Data>, k: nat, p: nat)
    requires Copyable(rs) && k < |rs| && rs[k].addr <= p * PGSIZE < rs[k].addr + rs[k].sz
    ensures HasPage(rs, k, p) && p * PGSIZE + PGSIZE <= rs[k].addr + rs[k].sz
  {
  }

  lemma AppendRegion(rs: seq<Data>, k: nat, d: Data, i: nat, rs': seq<Data>)
    requires RegionsOk(rs) && k < |rs| && rs[k] == d && Inserted(rs[..k], d, i, rs')
    ensures rs' == rs[..k + 1]
  {
  }

  lemma NotThere(rs: seq<Data>, k: nat)
    requires RegionsOk(rs) && k < |rs|
    ensures !Starts(rs[..k], rs[k].addr)
  {
  }

  /** The sentinel is no entry of the tree. */
  lemma HeadIsEnd(tree: RbTree, i: nat)
    requires tree.Valid() && i <= |tree.Elements()|
    ensures At(tree.Elements(), i, tree.head) == tree.head <==> i == |tree.Elements()|
  {
    InorderNodes(tree.tree);
    assert i < |tree.Elements()| ==> tree.Elements()[i] in Nodes(tree.tree);
  }

  /** copy_mmap, with the reference counts left out; `ok` is false where it panics. */
  method CopyMmap(parent: MmapObj, child: MmapObj, vm: Vm.PageTables, rt: nat, rn: nat) returns (ok: bool)
    requires parent.Valid() && child.Valid() && child.Regions() == [] && Copyable(parent.Regions())
    requires parent != child && parent.tree != child.tree && parent.tree.repr !! child.tree.repr
    requires vm.Valid() && V.Top(rt) in vm.at && V.Top(rn) in vm.at && rt != rn
    modifies child, child.tree, child.tree.repr, vm`tables, vm`free, vm`at
    ensures parent.Valid() && parent.Regions() == old(parent.Regions()) && child.Valid() && vm.Valid()
    ensures ok ==>
      child.Regions() == parent.Regions() && child.highLevel == parent.highLevel &&
      child.placed == parent.placed
    ensures ok ==> Forked(old(vm.tables), old(vm.at), vm.tables, vm.at, rt, rn, parent.Regions())
    ensures ok ==> forall k: nat, p: nat ::
      HasPage(parent.Regions(), k, p) && Present(old(vm.tables), old(vm.at), rt, p) ==>
        && Inherits(Entry(vm.tables, vm.at, rt, p), Entry(old(vm.tables), old(vm.at), rt, p), parent.Regions()[k])
        && Entry(vm.tables, vm.at, rn, p) == Entry(vm.tables, vm.at, rt, p)
    ensures var bad := Clash(old(vm.tables), old(vm.at), rt, rn, parent.Regions()) ||
        Doubled(old(vm.tables), old(vm.at), rt, parent.Regions());
      (bad ==> !ok) && (!ok ==> bad || vm.free == {})
    ensures ok && V.LeavesOk(old(vm.tables), old(vm.at), rt) && V.LeavesOk(old(vm.tables), old(vm.at), rn) ==>
      var fine := PermsOk(old(vm.tables), old(vm.at), rt, parent.Regions());
      (V.LeavesOk(vm.tables, vm.at, rt) <==> fine) && (V.LeavesOk(vm.tables, vm.at, rn) <==> fine)
  {
    hide RbTree.Valid; hide V.Ok; hide Copying; hide Copyable; hide Clash; hide Doubled; hide Forked; hide RegionsOk;
    hide V.LeavesOk; hide PermsOk; hide HasPage; hide Present; hide Inherits; hide Entry; hide AddrLess;
    hide Inserted; hide Starts;
    ghost var rs, k, ts0, at0, who := parent.Regions(), 0, vm.tables, vm.at, map[];
    CopyableFacts(rs);
    CopyStarts(ts0, at0, rt, rn, rs);
    FirstEntry(parent.tree, 0);
    HeadIsEnd(parent.tree, 0);
    var node := parent.tree.head.left;
    while node != parent.tree.head
      invariant parent.Valid() && parent.Regions() == rs && parent.highLevel == old(parent.highLevel)
      invariant child.Valid() && k <= |rs| && child.Regions() == rs[..k]
      invariant fresh(child.tree.repr - old(child.tree.repr))
      invariant vm.Valid() && V.Top(rt) in vm.at && V.Top(rn) in vm.at
      invariant Copying(ts0, at0, vm.tables, vm.at, rt, rn, rs, who, k, 0)
      invariant node == At(parent.tree.Elements(), k, parent.tree.head) && (node == parent.tree.head <==> k == |rs|)
      decreases |rs| - k
    {
      var d := node.data;
      NextRegionFacts(rs, k);
      InsertNext(child, d, rs, k);
      ok, who := CopyPages(vm, rt, rn, d, ts0, at0, rs, k, who);
      if !ok {
        return;
      }
      k := k + 1;
      HeadIsEnd(parent.tree, k);
      ghost var steps;
      node, steps := parent.tree.Next(node, k - 1);
    }
    CopyEnds(ts0, at0, vm.tables, vm.at, rt, rn, rs, who);
    AllInherit(ts0, at0, vm.tables, vm.at, rt, rn, rs);
    if V.LeavesOk(ts0, at0, rt) && V.LeavesOk(ts0, at0, rn) {
      ForkWellFormed(ts0, at0, vm.tables, vm.at, rt, rn, rs);
    }
    TakeMark(parent, child);
    ok := true;
  }

  /** The child goes on placing regions where the parent does. */
  method TakeMark(parent: MmapObj, child: MmapObj)
    requires parent.Valid() && child.Valid() && parent != child
    modifies child`highLevel, child`placed
    ensures child.Valid() && child.highLevel == parent.highLevel && child.placed == parent.placed
  {
    child.highLevel := parent.highLevel;
    child.placed := parent.placed;
  }

  /** The child gets the parent's next region. */
  method InsertNext(child: MmapObj, d: Data, ghost rs: seq<Data>, ghost k: nat)
    requires child.Valid() && RegionsOk(rs) && k < |rs| && rs[k] == d && child.Regions() == rs[..k]
    modifies child.tree, child.tree.repr
    ensures child.Valid() && child.Regions() == rs[..k + 1]
    ensures fresh(child.tree.repr - old(child.tree.repr))
  {
    hide RbTree.Valid; hide Inserted; hide Starts; hide AddrLess;
    NotThere(rs, k);
    var _, i := child.InsertRegion(d.addr, d.sz, d.perm, d.flag);
    AppendRegion(rs, k, d, i, child.Regions());
  }

  lemma CopyableFacts(rs: seq<Data>)
    requires Copyable(rs)
    ensures RegionsOk(rs) && forall i :: 0 <= i < |rs| ==> rs[i].MmapNode?
  {
  }

  lemma NextRegionFacts(rs: seq<Data>, k: nat)
    requires Copyable(rs) && k < |rs|
    ensures RegionsOk(rs) && rs[k].MmapNode? && rs[k].addr % PGSIZE == 0 && rs[k].sz % PGSIZE == 0
  {
  }

  /** What fork's copy means for a page that the parent has in a region: parent and child now have the
      same entry, for the memory that was there before, valid and for the user, readable and executable as
      the region says, writable as it says unless it is private.  All other pages are as they were. */
  lemma CopyMeans(ts0: V.Tables, at0: V.Layout, ts: V.Tables, at: V.Layout, parent: nat, child: nat, rs: seq<Data>,
            k: nat, p: nat)
    requires Copyable(rs) && Forked(ts0, at0, ts, at, parent, child, rs) && !Doubled(ts0, at0, parent, rs) && p < PAGES
    ensures var w, here, there := Entry(ts0, at0, parent, p), Entry(ts, at, parent, p), Entry(ts, at, child, p);
      && (HasPage(rs, k, p) && w % 2 == 1 ==> here == there && Inherits(here, w, rs[k]))
      && (w % 2 == 0 || (forall i: nat :: !HasPage(rs, i, p)) ==> here == w && there == Entry(ts0, at0, child, p))
  {
    hide Entry; hide Shared; hide Masked; hide UserPerm; hide Covers; hide Inherits;
    var w, r := Entry(ts0, at0, parent, p), RegionAt(rs, p);
    if HasPage(rs, k, p) && w % 2 == 1 {
      OneRegion(ts0, at0, parent, rs, k, p);
      SharedBits(w, rs[k]);
    }
  }

  lemma AllInherit(ts0: V.Tables, at0: V.Layout, ts: V.Tables, at: V.Layout, parent: nat, child: nat, rs: seq<Data>)
    requires Copyable(rs) && Forked(ts0, at0, ts, at, parent, child, rs) && !Doubled(ts0, at0, parent, rs)
    ensures forall k: nat, p: nat :: HasPage(rs, k, p) ==> k < |rs| && rs[k].MmapNode?
    ensures forall k: nat, p: nat :: HasPage(rs, k, p) && Present(ts0, at0, parent, p) ==>
      && Inherits(Entry(ts, at, parent, p), Entry(ts0, at0, parent, p), rs[k])
      && Entry(ts, at, child, p) == Entry(ts, at, parent, p)
  {
    hide Forked; hide Doubled; hide Entry; hide Inherits; hide Covers;
    forall k: nat, p: nat | HasPage(rs, k, p) && Present(ts0, at0, parent, p)
      ensures Inherits(Entry(ts, at, parent, p), Entry(ts0, at0, parent, p), rs[k])
      ensures Entry(ts, at, child, p) == Entry(ts, at, parent, p)
    {
      CopyMeans(ts0, at0, ts, at, parent, child, rs, k, p);
    }
  }

  lemma SharedPage(w: nat, d: Data)
    requires d.MmapNode? && UserPerm(Masked(d)) < 1024
    ensures Shared(w, d) / 1024 == w / 1024
  {
    hide UserPerm; hide Masked;
    V.PteRoundTrip(V.PTE2PA(w), UserPerm(Masked(d)));
    PageStart(w);
  }

  // ---------------------------------------------------------------------------------------
  // munmap

  /** One more page is unmapped. */
  lemma UnmapNext(ts: V.Tables, at: V.Layout, x: V.Tables, y: V.Tables, root: nat, va: nat, n: nat)
    requires va % PGSIZE == 0 && V.UnmapsPages(ts, at, x, at, root, va, n) &&
      V.UnmapsPages(x, at, y, at, root, va + n * PGSIZE, 1)
    ensures V.UnmapsPages(ts, at, y, at, root, va, n + 1)
  {
    assert (va + n * PGSIZE) / PGSIZE == va / PGSIZE + n;
  }

  /** A page without an entry is unmapped already. */
  lemma UnmapNone(ts: V.Tables, at: V.Layout, x: V.Tables, root: nat, va: nat, n: nat)
    requires va % PGSIZE == 0 && V.UnmapsPages(ts, at, x, at, root, va, n) && va + n * PGSIZE < V.SPACE
    requires V.Leaf(x, at, root, va + n * PGSIZE) == 0
    ensures V.UnmapsPages(ts, at, x, at, root, va, n + 1)
  {
    assert (va + n * PGSIZE) / PGSIZE == va / PGSIZE + n;
    forall a: nat | a < V.SPACE && a / PGSIZE == va / PGSIZE + n ensures V.Leaf(x, at, root, a) == 0 {
      V.PagesApart(a, va + n * PGSIZE);
    }
  }

  lemma PagesIn(va: nat, sz: nat, n: nat)
    requires sz % PGSIZE == 0
    ensures va + n * PGSIZE < va + sz <==> n < sz / PGSIZE
    ensures sz / PGSIZE * PGSIZE == sz
  {
  }

  lemma ZeroOrValid(w: nat)
    ensures (w == 0 || V.IsValid(w)) && !V.IsValid(w) ==> w == 0
    ensures V.IsMapping(w) <==> V.IsValid(w) && !Bare(w)
    ensures Bare(w) ==> V.IsValid(w)
  {
  }

  /** A valid entry without any other flag, at which vm_unmap panics; no user mapping is one. */
  predicate Bare(w: nat)
  {
    V.IsValid(w) && V.Flags(w) == 1
  }

  ghost predicate NoneBare(ts: V.Tables, at: V.Layout, root: nat, va: nat, n: nat)
  {
    forall i: nat :: i < n ==> !Bare(V.Leaf(ts, at, root, va + i * PGSIZE))
  }

  /** munmap's loop over the pages of the region; `ok` is false where vm_unmap panics. */
  method UnmapRegion(vm: Vm.PageTables, root: nat, addr: nat, sz: nat) returns (ok: bool)
    requires vm.Valid() && V.Top(root) in vm.at && addr % PGSIZE == 0 && sz % PGSIZE == 0 && addr + sz <= V.SPACE
    modifies vm`tables, vm`free, vm`at, vm`released
    ensures vm.Valid() && vm.at == old(vm.at) && vm.free == old(vm.free) && vm.released == old(vm.released)
    ensures ok <==> NoneBare(old(vm.tables), old(vm.at), root, addr, sz / PGSIZE)
    ensures ok ==> V.UnmapsPages(old(vm.tables), vm.at, vm.tables, vm.at, root, addr, sz / PGSIZE)
  {
    hide V.Ok; hide V.Leaf; hide V.UnmapsPages; hide V.PosOf; hide V.PX; hide V.IsValid; hide V.IsMapping;
    hide V.SameLeaves; hide Bare;
    var va := addr;
    ghost var n: nat := 0;
    V.NothingUnmapped(vm.tables, vm.at, root, addr);
    PagesIn(addr, sz, 0);
    while va < addr + sz
      invariant va == addr + n * PGSIZE && n <= sz / PGSIZE
      invariant vm.Valid() && vm.at == old(vm.at) && vm.free == old(vm.free) && vm.released == old(vm.released)
      invariant V.UnmapsPages(old(vm.tables), vm.at, vm.tables, vm.at, root, addr, n)
      invariant NoneBare(old(vm.tables), old(vm.at), root, addr, n)
      decreases addr + sz - va
    {
      PagesIn(addr, sz, n);
      V.UnmapsAt(old(vm.tables), vm.tables, vm.at, root, addr, n);
      V.NoLeaf(vm.tables, vm.at, root, va);
      ZeroOrValid(V.Leaf(vm.tables, vm.at, root, va));
      var t, k := vm.Walk(root, va, false);
      ghost var x := vm.tables;
      if t != 0 {
        V.LeafHere(vm.tables, vm.at, root, va);
        V.LeafOrZero(vm.tables, vm.at, vm.free, root, va);
      }
      if t == 0 || !V.IsValid(vm.tables[t][k]) {
        UnmapNone(old(vm.tables), vm.at, x, root, addr, n);
      } else {
        ghost var m;
        var r;
        r, m := vm.Unmap(root, va, 1, false);
        if !r.Done? {
          assert m == 0;
          return false;
        }
        assert V.IsMapping(V.Leaf(x, vm.at, root, va + 0 * PGSIZE));
        UnmapNext(old(vm.tables), vm.at, x, vm.tables, root, addr, n);
      }
      va := va + PGSIZE;
      n := n + 1;
      PagesIn(addr, sz, n);
    }
    return true;
  }

  /** munmap: the region that starts at the address goes, and with it all its pages; no other page
      changes.  `ok` is false where it panics.  The source erases the region after its pages; neither depends
      on the other.  The reference counts are left out. */
  method Munmap(obj: MmapObj, vm: Vm.PageTables, root: nat, addr: nat) returns (ok: bool, r: int, ghost i: nat)
    requires obj.Valid() && vm.Valid() && V.Top(root) in vm.at
    requires forall k :: 0 <= k < |obj.Regions()| ==> obj.Regions()[k].addr + obj.Regions()[k].sz <= V.SPACE
    modifies obj, obj.tree, obj.tree.repr, vm`tables, vm`free, vm`at, vm`released
    ensures obj.Valid() && vm.Valid() && vm.at == old(vm.at)
    ensures r == if Starts(old(obj.Regions()), addr) then 0 else -1
    ensures r == -1 ==> ok && obj.Regions() == old(obj.Regions()) && vm.tables == old(vm.tables)
    ensures r == 0 ==> !Starts(obj.Regions(), addr) && RegionGone(old(obj.Regions()), i, addr, obj.Regions())
    ensures r == 0 ==>
      (ok <==> NoneBare(old(vm.tables), old(vm.at), root, addr, old(obj.Regions())[i].sz / PGSIZE))
    ensures r == 0 && ok ==>
      V.UnmapsPages(old(vm.tables), vm.at, vm.tables, vm.at, root, addr, old(obj.Regions())[i].sz / PGSIZE)
  {
    hide RbTree.Valid; hide V.Ok; hide V.UnmapsPages; hide NoneBare;
    ghost var rs := obj.Regions();
    var found, d;
    found, d, i := obj.Remove(addr);
    if !found {
      return true, -1, i;
    }
    assert RegionGone(rs, i, addr, obj.Regions());
    ok := UnmapRegion(vm, root, addr, d.sz);
    r := 0;
  }

  ghost predicate RegionGone(rs: seq<Data>, i: nat, addr: nat, rs': seq<Data>)
  {
    i < |rs| && rs[i].MmapNode? && rs[i].addr == addr && rs' == rs[..i] + rs[i + 1..]
  }
}
