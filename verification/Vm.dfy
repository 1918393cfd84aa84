/** kernel/vm.c: creating, walking, changing and freeing page tables.  mem_malloc hands out any free
    page, or NULL when there is none; mem_free is recorded in `released`. */
module Vm {
  import opened Common
  import opened VmTables
  import opened VmFree

  /** How vm_map and vm_unmap end: 0, -1, or a panic. */
  datatype Outcome = Done | NoMemory | Panic

  class PageTables {
    var tables: Tables
    var free: set<nat>
    var released: seq<nat>
    ghost var at: Layout

    ghost predicate Valid()
      reads this
    {
      Ok(tables, at, free)
    }

    /** mem_malloc(PGSIZE) */
    method Malloc() returns (page: nat)
      requires Valid()
      ensures if free == {} then page == 0 else page in free && page > 0
    {
      if free == {} {
        page := 0;
      } else {
        page :| page in free;
      }
    }

    /** vm_create */
    method Create() returns (root: nat)
      requires Valid()
      modifies this`tables, this`free, this`at
      ensures Valid()
      ensures root == 0 ==> tables == old(tables) && free == old(free) && at == old(at)
      ensures root != 0 ==> root in old(free) && Top(root) in at && at == old(at)[Top(root) := root]
      ensures root != 0 ==> forall a: nat :: Leaf(tables, at, root, a) == 0
      ensures SameLeaves(old(tables), old(at), tables, at)
    {
      root := Malloc();
      if root != 0 {
        NewRoot(tables, at, free, root);
        tables, free, at := tables[root := Zeros()], free - {root}, at[Top(root) := root];
      }
    }

    /** walk: the table and the index of the entry for `va`; the table is 0 if there is none. */
    method Walk(root: nat, va: nat, alloc: bool) returns (t: nat, k: nat)
      requires Valid() && Top(root) in at
      modifies this`tables, this`free, this`at
      ensures Valid() && SameLeaves(old(tables), old(at), tables, at)
      ensures forall p :: p in old(at) ==> p in at && at[p] == old(at)[p]
      ensures free <= old(free)
      ensures !alloc ==>
        tables == old(tables) && at == old(at) && free == old(free) &&
        (t == 0 <==> PosOf(root, va, 0) !in at)
      ensures alloc && t == 0 ==> free == {}
      ensures t != 0 ==>
        PosOf(root, va, 0) in at && t == at[PosOf(root, va, 0)] && k == PX(0, va) && t in tables &&
        |tables[t]| == ENTRIES
    {
      hide Ok; hide Leaf; hide IsValid;
      TableAbove(tables, at, free, root, va);
      k := PX(0, va);
      t := root;
      var level := 2;
      RootHere(tables, at, free, root);
      while level > 0
        invariant 0 <= level <= 2 && Valid() && PosOf(root, va, level) in at && t == at[PosOf(root, va, level)] && t > 0
        invariant SameLeaves(old(tables), old(at), tables, at) && free <= old(free)
        invariant forall p :: p in old(at) ==> p in at && at[p] == old(at)[p]
        invariant !alloc ==> tables == old(tables) && at == old(at) && free == old(free)
        invariant t in tables && |tables[t]| == ENTRIES
      {
        StepDown(tables, at, free, root, va, level);
        var w := tables[t][PX(level, va)];
        if IsValid(w) {
          t := PTE2PA(w);
        } else {
          if !alloc {
            t := 0;
            return;
          }
          var page := Malloc();
          if page == 0 {
            t := 0;
            return;
          }
          ghost var p := PosOf(root, va, level - 1);
          AddTableOk(tables, at, free, p, page);
          AddTableLeaves(tables, at, free, p, page);
          ghost var added := AddTable(tables, at, p, page);
          free := free - {page};
          tables := tables[page := Zeros()];
          var entries: seq<nat> := tables[t][PX(level, va) := PA2PTE(page) + 1];
          tables := tables[t := entries];
          assert tables == added;
          at := at[p := page];
          t := page;
        }
        level := level - 1;
        TableHere(tables, at, free, PosOf(root, va, level));
      }
    }

    /** vm_map: `n` counts the pages done when it stops. */
    method Map(root: nat, va: nat, pa: nat, sz: nat, perm: nat, remap: bool) returns (r: Outcome, ghost n: nat)
      requires Valid() && Top(root) in at
      requires va % PGSIZE == 0 && sz > 0 && va + sz <= SPACE && perm < 1024
      modifies this`tables, this`free, this`at
      ensures forall q :: q in old(at) ==> q in at && at[q] == old(at)[q]
      ensures Valid() && Top(root) in at && MapsPages(old(tables), old(at), tables, at, root, va, pa, perm, n)
      ensures !remap ==> NothingThere(old(tables), old(at), root, va, n)
      ensures r.Done? ==> n == (va + sz - 1) / PGSIZE - va / PGSIZE + 1
      ensures r.NoMemory? ==> free == {}
      ensures r.Panic? ==>
        !remap && va + n * PGSIZE < va + sz && IsValid(Leaf(old(tables), old(at), root, va + n * PGSIZE))
    {
      hide Ok; hide Leaf; hide IsValid; hide MapsPages; hide SameLeaves; hide PosOf; hide PX; hide MakePte;
      hide NothingThere; hide IsMapping;
      var last := (va + sz - 1) / PGSIZE * PGSIZE;
      var v, p := va, pa;
      n := 0;
      NothingMapped(tables, at, root, va, pa, perm);
      NoneThere(tables, at, root, va);
      while true
        invariant v == va + n * PGSIZE && p == pa + n * PGSIZE && v <= last
        invariant forall q :: q in old(at) ==> q in at && at[q] == old(at)[q]
        invariant Valid() && Top(root) in at && MapsPages(old(tables), old(at), tables, at, root, va, pa, perm, n)
        invariant !remap ==> NothingThere(old(tables), old(at), root, va, n)
        decreases last - v
      {
        ghost var x, ax := tables, at;
        var t, k := Walk(root, v, true);
        MapsThenSame(old(tables), old(at), x, ax, tables, at, root, va, pa, perm, n);
        if t == 0 {
          return NoMemory, n;
        }
        LeafHere(tables, at, root, v);
        MapsAt(old(tables), old(at), tables, at, root, va, pa, perm, n, v);
        if IsValid(tables[t][k]) && !remap {
          return Panic, n;
        }
        LeafOrZero(tables, at, free, root, v);
        if !remap {
          OneMoreFree(old(tables), old(at), root, va, n);
        }
        LeafWord(p, perm);
        SetLeafOk(tables, at, free, PosOf(root, v, 0), k, MakePte(p, perm));
        SetLeafLeaves(tables, at, free, root, v, MakePte(p, perm));
        MapOneMore(old(tables), old(at), tables, at, SetLeaf(tables, t, k, MakePte(p, perm)), root, va, pa, perm, n);
        var entries: seq<nat> := tables[t][k := MakePte(p, perm)];
        tables := tables[t := entries];
        n := n + 1;
        if v == last {
          return Done, n;
        }
        v := v + PGSIZE;
        p := p + PGSIZE;
      }
    }

    /** vm_unmap: `n` counts the pages done when it stops. */
    method Unmap(root: nat, va: nat, npages: nat, doFree: bool) returns (r: Outcome, ghost n: nat)
      requires Valid() && Top(root) in at && va + npages * PGSIZE <= SPACE
      modifies this`tables, this`free, this`at, this`released
      ensures at == old(at) && free == old(free)
      ensures Valid() && n <= npages && UnmapsPages(old(tables), at, tables, at, root, va, n)
      ensures r.Done? <==> va % PGSIZE == 0 && n == npages
      ensures !r.NoMemory?
      ensures r.Panic? && va % PGSIZE == 0 ==> n < npages && !IsMapping(Leaf(old(tables), at, root, va + n * PGSIZE))
      ensures r.Done? ==> forall i :: 0 <= i < npages ==> IsMapping(Leaf(old(tables), at, root, va + i * PGSIZE))
      ensures released == old(released) + (if doFree then PagesOf(old(tables), at, root, va, n) else [])
    {
      hide Ok; hide Leaf; hide UnmapsPages; hide SameLeaves; hide PosOf; hide PX; hide IsValid;
      hide IsMapping; hide Flags; hide PTE2PA; hide PagesOf;
      n := 0;
      NothingUnmapped(tables, at, root, va);
      PagesOfNext(tables, at, root, va, 0);
      if va % PGSIZE != 0 {
        return Panic, n;
      }
      var a := va;
      while a < va + npages * PGSIZE
        invariant a == va + n * PGSIZE && n <= npages && at == old(at) && free == old(free)
        invariant Valid() && UnmapsPages(old(tables), at, tables, at, root, va, n)
        invariant forall i :: 0 <= i < n ==> IsMapping(Leaf(old(tables), at, root, va + i * PGSIZE))
        invariant released == old(released) + (if doFree then PagesOf(old(tables), at, root, va, n) else [])
        decreases va + npages * PGSIZE - a
      {
        UnmapsAt(old(tables), tables, at, root, va, n);
        NoLeaf(tables, at, root, a);
        MappingIs(0);
        var t, k := Walk(root, a, false);
        if t == 0 {
          return Panic, n;
        }
        LeafHere(tables, at, root, a);
        MappingIs(tables[t][k]);
        if !IsValid(tables[t][k]) {
          return Panic, n;
        }
        if Flags(tables[t][k]) == 1 {
          return Panic, n;
        }
        LeafOrZero(tables, at, free, root, a);
        PagesOfNext(old(tables), at, root, va, n);
        if doFree {
          released := released + [PTE2PA(tables[t][k])];
        }
        SetLeafOk(tables, at, free, PosOf(root, a, 0), k, 0);
        SetLeafLeaves(tables, at, free, root, a, 0);
        UnmapOneMore(old(tables), at, tables, SetLeaf(tables, t, k, 0), root, va, n);
        var entries: seq<nat> := tables[t][k := 0];
        tables := tables[t := entries];
        n := n + 1;
        a := a + PGSIZE;
      }
      return Done, n;
    }

    /** vm_map and then vm_unmap of the same pages: every entry of every tree is as before.  The second call
        panics at its first page exactly if the permissions are none. */
    method MapAndUnmap(root: nat, va: nat, pa: nat, npages: nat, perm: nat) returns (mapped: Outcome, unmapped: Outcome)
      requires Valid() && Top(root) in at
      requires va % PGSIZE == 0 && npages > 0 && va + npages * PGSIZE <= SPACE && perm < 1024
      modifies this`tables, this`free, this`at, this`released
      ensures Valid() && released == old(released)
      ensures mapped.NoMemory? ==> free == {}
      ensures mapped.Panic? ==> !NothingThere(old(tables), old(at), root, va, npages)
      ensures mapped.Done? ==> NothingThere(old(tables), old(at), root, va, npages)
      ensures mapped.Done? ==> (unmapped.Done? <==> perm / 2 != 0) && !unmapped.NoMemory?
      ensures mapped.Done? && unmapped.Done? ==>
        forall r: nat, a: nat :: a < SPACE ==> Leaf(tables, at, r, a) == Leaf(old(tables), old(at), r, a)
    {
      hide Ok; hide Leaf; hide UnmapsPages; hide MapsPages; hide IsMapping; hide NothingThere; hide MakePte;
      hide IsValid;
      WholePages(va, npages);
      ghost var ts0, at0 := tables, at;
      ghost var n;
      mapped, n := Map(root, va, pa, npages * PGSIZE, perm, false);
      unmapped := Done;
      if !mapped.Done? {
        if mapped.Panic? {
          InTheWay(ts0, at0, root, va, n, npages);
        }
        return;
      }
      ghost var x, ax := tables, at;
      AllMappings(ts0, at0, x, ax, root, va, pa, perm, npages);
      unmapped, n := Unmap(root, va, npages, false);
      if unmapped.Done? {
        assert IsMapping(Leaf(x, ax, root, va + 0 * PGSIZE));
        forall r: nat, a: nat | a < SPACE ensures Leaf(tables, at, r, a) == Leaf(ts0, at0, r, a) {
          UnmapUndoesMap(ts0, at0, x, ax, tables, at, root, va, pa, perm, npages, r, a);
        }
      }
    }

    /** walkaddr */
    method WalkAddr(root: nat, va: nat) returns (pa: nat)
      requires Valid() && Top(root) in at
      modifies this`tables, this`free, this`at
      ensures tables == old(tables) && free == old(free) && at == old(at)
      ensures pa == Phys(tables, at, root, va)
      ensures var w := Leaf(tables, at, root, va);
        pa == if va < 0x40_0000_0000 && w % 2 == 1 && w / 16 % 2 == 1 then w / 1024 * 4096 + va % 4096 else 0
    {
      hide Ok; hide Leaf; hide PosOf; hide PX;
      if va >= MAXVA {
        return 0;
      }
      NoLeaf(tables, at, root, va);
      var t, k := Walk(root, va, false);
      if t == 0 {
        return 0;
      }
      LeafHere(tables, at, root, va);
      if !IsValid(tables[t][k]) {
        return 0;
      }
      if !IsUser(tables[t][k]) {
        return 0;
      }
      pa := PTE2PA(tables[t][k]);
      return pa + va % PGSIZE;
    }

    /** free_pagetable(pt, 0), on the table at position `p`. */
    method FreeTable(pt: nat, ghost p: Pos) returns (ghost order: seq<nat>)
      requires SubOk(tables, at, p) && pt == at[p]
      modifies this`tables, this`free, this`released
      ensures Freed(old(tables), tables, at, p) && free == old(free) + Pages(at, p)
      ensures released == old(released) + order && OnceEach(order, Pages(at, p))
      decreases Height(p)
    {
      hide SubOk; hide Freeing; hide Freed; hide Pages; hide PagesBelow; hide OnceEach; hide PTE2PA; hide IsPageTable;
      order := [];
      StartFreeing(tables, at, p);
      if pt == 0 {
        return;
      }
      for i := 0 to ENTRIES
        invariant Freeing(old(tables), tables, pt, PagesBelow(at, p, i), i) && OnceEach(order, PagesBelow(at, p, i))
        invariant free == old(free) + PagesBelow(at, p, i) && released == old(released) + order
      {
        FreeingAt(old(tables), tables, pt, PagesBelow(at, p, i), i);
        var pte := tables[pt][i];
        if IsPageTable(pte) {
          ghost var x, c := tables, Child(p, i);
          ChildReady(old(tables), tables, at, p, i);
          var child := PTE2PA(pte);
          ghost var more := FreeTable(child, c);
          NotFreed(old(tables), x, at, p, i, tables);
          ghost var y := tables;
          var entries: seq<nat> := tables[pt][i := 0];
          tables := tables[pt := entries];
          ChildFreed(old(tables), x, y, tables, at, p, i, order, more);
          order := order + more;
        } else {
          NothingBehind(old(tables), at, p, i);
          FreeingOn(old(tables), tables, pt, PagesBelow(at, p, i), i);
        }
      }
      AllFreed(old(tables), tables, at, p, order);
      tables := tables - {pt};
      free := free + {pt};
      released := released + [pt];
      order := order + [pt];
    }

    /** free_pagetable(root, 0): all tables of the tree, each exactly once, and no others. */
    method FreePageTable(root: nat) returns (ghost order: seq<nat>)
      requires Valid() && Top(root) in at && LeavesOk(tables, at, root)
      modifies this`tables, this`free, this`released, this`at
      ensures Valid() && Top(root) !in at
      ensures released == old(released) + order && OnceEach(order, Pages(old(at), Top(root)))
      ensures free == old(free) + Pages(old(at), Top(root)) && Pages(old(at), Top(root)) !! old(free)
      ensures forall r: nat, a: nat :: Leaf(tables, at, r, a) == if r == root then 0
        else Leaf(old(tables), old(at), r, a)
    {
      hide Freed; hide Leaf; hide SubOk; hide OnceEach; hide LeavesOk;
      WholeTree(tables, at, free, root);
      PagesNotFree(tables, at, free, root);
      ghost var ts0, free0 := tables, free;
      order := FreeTable(root, Top(root));
      TreeGone(ts0, tables, at, free0, root);
      at := map q | q in at && q.root != root :: at[q];
    }
  }

  lemma WholePages(va: nat, npages: nat)
    requires va % PGSIZE == 0 && npages > 0
    ensures (va + npages * PGSIZE - 1) / PGSIZE - va / PGSIZE + 1 == npages
  {
    assert va == va / PGSIZE * PGSIZE;
    assert (va + npages * PGSIZE - 1) / PGSIZE == va / PGSIZE + npages - 1;
  }

  lemma NoneThere(ts: Tables, at: Layout, root: nat, va: nat)
    ensures NothingThere(ts, at, root, va, 0)
  {
  }

  lemma InTheWay(ts: Tables, at: Layout, root: nat, va: nat, n: nat, npages: nat)
    requires n < npages && va + npages * PGSIZE <= SPACE && IsValid(Leaf(ts, at, root, va + n * PGSIZE))
    ensures !NothingThere(ts, at, root, va, npages)
  {
    hide Leaf;
    var a := va + n * PGSIZE;
    assert a / PGSIZE == va / PGSIZE + n;
    assert Leaf(ts, at, root, a) != 0;
  }

  lemma MappingIs(w: nat)
    ensures IsMapping(w) <==> IsValid(w) && Flags(w) != 1
  {
  }

  /** The pages just mapped are all of the kind that vm_unmap accepts, or none is. */
  lemma AllMappings(ts: Tables, at: Layout, x: Tables, ax: Layout, root: nat, va: nat, pa: nat, perm: nat, n: nat)
    requires perm < 1024 && MapsPages(ts, at, x, ax, root, va, pa, perm, n) && va + n * PGSIZE <= SPACE
    ensures forall i: nat :: i < n ==> (IsMapping(Leaf(x, ax, root, va + i * PGSIZE)) <==> perm / 2 != 0)
  {
    hide IsMapping; hide Leaf; hide MakePte;
    forall i: nat | i < n ensures IsMapping(Leaf(x, ax, root, va + i * PGSIZE)) <==> perm / 2 != 0 {
      var a := va + i * PGSIZE;
      assert a / PGSIZE == va / PGSIZE + i;
      assert Leaf(x, ax, root, a) == MakePte(pa + i * PGSIZE, perm);
      LeafWord(pa + i * PGSIZE, perm);
    }
  }

  lemma RootHere(ts: Tables, at: Layout, free: set<nat>, root: nat)
    requires Ok(ts, at, free) && Top(root) in at
    ensures at[Top(root)] == root > 0 && root in ts && |ts[root]| == ENTRIES
  {
    TableHere(ts, at, free, Top(root));
  }

  /** A fresh page as a new, empty tree. */
  lemma NewRoot(ts: Tables, at: Layout, free: set<nat>, root: nat)
    requires Ok(ts, at, free) && root in free
    ensures var ts', at' := ts[root := Zeros()], at[Top(root) := root];
      && Ok(ts', at', free - {root}) && SameLeaves(ts, at, ts', at')
      && Top(root) !in at && forall a: nat :: Leaf(ts', at', root, a) == 0
  {
    var ts', at', free' := ts[root := Zeros()], at[Top(root) := root], free - {root};
    forall q | q in at ensures at[q] != root { assert PageOk(ts, at, free, q); }
    assert Top(root) in at ==> LinkOk(ts, at, Top(root));
    forall q | q in at' ensures PageOk(ts', at', free', q) && LinkOk(ts', at', q) && KidsOk(ts', at', q) {
      if q in at { assert PageOk(ts, at, free, q) && LinkOk(ts, at, q) && KidsOk(ts, at, q); }
    }
    forall r: nat, va: nat ensures Leaf(ts', at', r, va) == Leaf(ts, at, r, va) {
      if PosOf(r, va, 0) in at { assert PageOk(ts, at, free, PosOf(r, va, 0)); }
    }
    forall a: nat ensures PosOf(root, a, 0) !in at { TableAbove(ts, at, free, root, a); }
  }
}
