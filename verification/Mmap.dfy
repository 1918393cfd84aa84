/** The regions of a task's address space (kernel/mmap.c), kept in a red-black tree ordered by start
    address. */
module Mmap {
  import opened Common
  import opened RbShape
  import opened RbOrder
  import opened RbTree

  /** VA_ANYNOMOUS: kernel-chosen regions lie from here on. */
  const WINDOW: nat := 0x20_0000_0000

  const MAP_ANONYMOUS: nat := 1
  const MAP_PRIVATE: nat := 2
  const MAP_SHARED: nat := 4
  const MAP_ZERO: nat := 8

  predicate HasFlag(flag: nat, bit: nat)
    requires bit > 0
  {
    flag / bit % 2 == 1
  }

  /** compf */
  predicate AddrLess(l: Data, r: Data)
  {
    l.addr < r.addr
  }

  lemma AddrOrder()
    ensures StrictWeakOrder(AddrLess)
  {
  }

  // ---------------------------------------------------------------------------------------
  // Regions

  /** The regions in the order of the tree. */
  function DataOf(xs: seq<RbNode>): (r: seq<Data>)
    ensures |r| == |xs| && forall i :: 0 <= i < |xs| ==> r[i] == xs[i].data
  {
    seq(|xs|, i requires 0 <= i < |xs| => xs[i].data)
  }

  predicate Covers(d: Data, a: nat)
  {
    d.MmapNode? && d.addr <= a < d.addr + d.sz
  }

  predicate Meet(d: Data, e: Data)
  {
    d.MmapNode? && e.MmapNode? && Overlap(d.addr, d.sz, e.addr, e.sz)
  }

  /** Page-aligned, and ordered by start. */
  ghost predicate RegionsOk(rs: seq<Data>)
  {
    && (forall i :: 0 <= i < |rs| ==> rs[i].MmapNode? && rs[i].addr % PGSIZE == 0 && rs[i].sz % PGSIZE == 0)
    && (forall i, j :: 0 <= i < j < |rs| ==> rs[i].addr < rs[j].addr)
  }

  /** In the window there are only regions that the kernel has placed, below the mark `high`, none of
      them overlapping another; all other regions end before the window. */
  ghost predicate WindowOk(rs: seq<Data>, high: nat)
  {
    && (forall i :: 0 <= i < |rs| ==> rs[i].MmapNode? && rs[i].sz > 0)
    && (forall i :: 0 <= i < |rs| ==> rs[i].addr + rs[i].sz <= if rs[i].addr >= WINDOW then WINDOW + high else WINDOW)
    && (forall i, j :: 0 <= i < j < |rs| && rs[i].addr >= WINDOW ==> rs[i].addr + rs[i].sz <= rs[j].addr)
  }

  predicate StartsAbove(rs: seq<Data>, i: nat, a: nat)
  {
    i < |rs| ==> a < rs[i].addr
  }

  lemma AllBelowMark(rs: seq<Data>, high: nat)
    requires WindowOk(rs, high)
    ensures forall k :: 0 <= k < |rs| ==> rs[k].addr < WINDOW + high
  {
  }

  /** The regions that the kernel has placed since the beginning, in the order of placing: each one
      starts where all before it have ended, so no address of the window is ever given twice. */
  ghost predicate PlacedOk(placed: seq<Data>, high: nat)
  {
    && (forall i :: 0 <= i < |placed| ==> placed[i].MmapNode? && placed[i].sz > 0)
    && (forall i :: 0 <= i < |placed| ==> WINDOW <= placed[i].addr && placed[i].addr + placed[i].sz <= WINDOW + high)
    && (forall i, j :: 0 <= i < j < |placed| ==> placed[i].addr + placed[i].sz <= placed[j].addr)
  }

  /** What is in the window is among the regions placed there. */
  ghost predicate Recorded(rs: seq<Data>, placed: seq<Data>)
  {
    forall i :: 0 <= i < |rs| && rs[i].addr >= WINDOW ==> rs[i] in placed
  }

  /** A request of positive size that leaves the address to the kernel, or wants one below the window. */
  predicate Fair(addr: nat, size: nat, flags: nat)
  {
    size > 0 && (KernelPlaces(addr, flags) || PageRoundDown(addr) + PageRoundUp(size) <= WINDOW)
  }

  /** A new region at the mark overlaps nothing that is there. */
  lemma NewInWindow(rs: seq<Data>, high: nat, i: nat, d: Data)
    requires RegionsOk(rs) && WindowOk(rs, high) && i <= |rs|
    requires d.MmapNode? && d.sz > 0 && d.addr == WINDOW + high
    requires (forall k :: 0 <= k < i ==> rs[k].addr <= d.addr) && (forall k :: i <= k < |rs| ==> d.addr < rs[k].addr)
    ensures i == |rs| && WindowOk(rs + [d], high + d.sz)
    ensures forall k :: 0 <= k < |rs| ==> rs[k].addr != d.addr && !Meet(rs[k], d)
  {
    AllBelowMark(rs, high);
    assert StartsAbove(rs, i, d.addr);
  }

  /** A region the caller has placed below the window. */
  lemma NewBelow(rs: seq<Data>, high: nat, i: nat, d: Data)
    requires WindowOk(rs, high) && i <= |rs| && d.MmapNode? && d.sz > 0 && d.addr + d.sz <= WINDOW
    requires forall k :: i <= k < |rs| ==> d.addr < rs[k].addr
    requires forall k :: 0 <= k < i ==> rs[k].addr < d.addr
    ensures WindowOk(rs[..i] + [d] + rs[i..], high)
  {
    var r := rs[..i] + [d] + rs[i..];
    forall k | 0 <= k < |r| ensures r[k] == if k < i then rs[k] else if k == i then d else rs[k - 1] {}
  }

  lemma OneRemoved(rs: seq<Data>, high: nat, placed: seq<Data>, i: nat)
    requires i < |rs|
    ensures RegionsOk(rs) ==> RegionsOk(rs[..i] + rs[i + 1..])
    ensures WindowOk(rs, high) ==> WindowOk(rs[..i] + rs[i + 1..], high)
    ensures Recorded(rs, placed) ==> Recorded(rs[..i] + rs[i + 1..], placed)
  {
    var r := rs[..i] + rs[i + 1..];
    forall k | 0 <= k < |r| ensures r[k] == rs[if k < i then k else k + 1] {}
  }

  /** Whichever region contains the address is the last one that starts at or below it, unless that one
      overlaps it. */
  lemma ContainingIsFound(rs: seq<Data>, i: nat, k: nat, a: nat)
    requires RegionsOk(rs) && 0 < i <= |rs| && k < |rs| && Covers(rs[k], a)
    requires (forall j :: 0 <= j < i ==> rs[j].addr <= a) && (forall j :: i <= j < |rs| ==> a < rs[j].addr)
    ensures k == i - 1 || Meet(rs[i - 1], rs[k])
  {
  }

  class MmapObj {
    const tree: RbTree
    var highLevel: nat
    ghost var placed: seq<Data>

    ghost function Regions(): seq<Data>
      reads this, tree
    {
      DataOf(tree.Elements())
    }

    ghost predicate Valid()
      reads this, tree, tree.repr
    {
      tree.Valid() && !tree.multi && tree.comp == AddrLess && RegionsOk(Regions()) && highLevel % PGSIZE == 0
    }

    /** The window holds only what the kernel has placed there, and no address has been used twice. */
    ghost predicate Apart()
      reads this, tree
    {
      WindowOk(Regions(), highLevel) && PlacedOk(placed, highLevel) && Recorded(Regions(), placed)
    }

    /** mmap_create, with `high_level` taken to start at 0. */
    constructor ()
      ensures Valid() && fresh(tree) && fresh(tree.repr) && Regions() == [] && highLevel == 0
      ensures placed == [] && Apart()
    {
      AddrOrder();
      tree := new RbTree(false, AddrLess);
      highLevel := 0;
      placed := [];
    }

    /** mmap_by_obj, without the allocation of physical pages; `ok` is false where it panics. */
    method Map(addr: nat, size: nat, perm: nat, flags: nat) returns (ok: bool, res: nat, ghost i: nat)
      requires Valid()
      modifies this, tree, tree.repr
      ensures Valid() && fresh(tree.repr - old(tree.repr))
      ensures ok <==> !Mixed(flags) && !Starts(old(Regions()), PlaceFor(addr, flags, old(highLevel)))
      ensures !ok ==> Regions() == old(Regions()) && highLevel == old(highLevel)
      ensures ok ==> res == PlaceFor(addr, flags, old(highLevel))
      ensures ok ==> Inserted(old(Regions()), Wanted(addr, size, perm, flags, old(highLevel)), i, Regions())
      ensures ok ==> i < |Regions()| && AsAsked(Regions()[i], addr, size, perm, flags, old(highLevel))
      ensures ok ==> highLevel == old(highLevel) + (if KernelPlaces(addr, flags) then PageRoundUp(size) else 0)
      ensures placed == old(placed) + (if ok && KernelPlaces(addr, flags) then
        [Wanted(addr, size, perm, flags, old(highLevel))] else [])
      ensures old(Apart()) && Fair(addr, size, flags) ==> Apart()
      ensures old(Apart()) && Fair(addr, size, flags) && KernelPlaces(addr, flags) && !Mixed(flags) ==> ok
    {
      hide WindowOk; hide PlacedOk; hide Recorded; hide Fair; hide KernelPlaces; hide AsAsked;
      hide RbTree.Valid; hide AddrLess; hide RegionsOk; hide Inserted; hide Starts; hide PageRoundDown;
      hide PageRoundUp; hide HasFlag;
      i := 0;
      if HasFlag(flags, MAP_PRIVATE) && HasFlag(flags, MAP_SHARED) {
        return false, 0, i;
      }
      var flag := flags;
      if !HasFlag(flag, MAP_SHARED) {
        flag := WithFlag(flag, MAP_PRIVATE);
      }
      PrivateKeeps(flags);
      PageMultiples(addr, size, highLevel);
      var a := PageRoundDown(addr);
      var sz := PageRoundUp(size);
      var random := a == 0 && !HasFlag(flag, MAP_ZERO) && HasFlag(flag, MAP_ANONYMOUS);
      if random {
        a := WINDOW + highLevel;
      }
      ghost var d := MmapNode(a, sz, perm, flag);
      PlaceIs(addr, size, perm, flags, highLevel);
      assert d == Wanted(addr, size, perm, flags, highLevel);
      ghost var rs, high, before := Regions(), highLevel, placed;
      WantedMeans(addr, size, perm, flags, highLevel);
      ok, i := InsertRegion(a, sz, perm, flag);
      InsertedThere(rs, d, i, Regions());
      res := a;
      if ok && random {
        highLevel := highLevel + sz;
        placed := placed + [d];
      }
      if WindowOk(rs, high) && PlacedOk(before, high) && Recorded(rs, before) && Fair(addr, size, flags) {
        MapKeepsApart(rs, high, before, addr, size, perm, flags, i, Regions());
      }
    }

    /** A node for the region goes into the tree, unless a region starts there already. */
    method InsertRegion(a: nat, sz: nat, perm: nat, flag: nat) returns (ok: bool, ghost i: nat)
      requires Valid() && a % PGSIZE == 0 && sz % PGSIZE == 0
      modifies tree, tree.repr
      ensures Valid() && fresh(tree.repr - old(tree.repr))
      ensures ok <==> !Starts(old(Regions()), a)
      ensures ok ==> Inserted(old(Regions()), MmapNode(a, sz, perm, flag), i, Regions())
      ensures !ok ==> Regions() == old(Regions())
    {
      hide RbTree.Valid; hide AddrLess; hide Inserted; hide RegionsOk; hide Starts; hide IsUpper;
      var node := new RbNode(MmapNode(a, sz, perm, flag));
      ghost var rs, xs := Regions(), tree.Elements();
      var ret;
      ret, ok, i := tree.Insert(node);
      UpperByAddr(xs, node, i);
      NoneEquivalent(xs, node);
      if ok {
        InsertData(xs, node, i);
        InsertedOk(rs, node.data, i);
      }
    }

    /** mmap_find: the last region that starts at or below the address. */
    method FindRegion(addr: nat) returns (found: bool, d: Data, ghost i: nat)
      requires Valid()
      ensures i <= |Regions()| && (found <==> i > 0)
      ensures (forall j :: 0 <= j < i ==> Regions()[j].addr <= addr) &&
        (forall j :: i <= j < |Regions()| ==> addr < Regions()[j].addr)
      ensures found ==> d == Regions()[i - 1]
      ensures found ==> d in Regions() && d.addr <= addr
      ensures found ==> forall j :: 0 <= j < |Regions()| && Regions()[j].addr <= addr ==> Regions()[j].addr <= d.addr
      ensures !found ==> forall j :: 0 <= j < |Regions()| ==> addr < Regions()[j].addr
    {
      var cmp := new RbNode(MmapNode(addr, 0, 0, 0));
      var node;
      ghost var steps;
      node, i, steps := tree.UpperBound(cmp);
      UpperByAddr(tree.Elements(), cmp, i);
      d := cmp.data;
      found := node != tree.head.left;
      FirstEntry(tree, i);
      if found {
        node := tree.Prev(node, i);
        d := node.data;
      }
    }

    /** The region-tree part of munmap: only a region that starts at the address goes. */
    method Remove(addr: nat) returns (found: bool, d: Data, ghost i: nat)
      requires Valid()
      modifies tree, tree.repr
      ensures Valid() && fresh(tree.repr - old(tree.repr))
      ensures found <==> Starts(old(Regions()), addr)
      ensures !found ==> Regions() == old(Regions())
      ensures found ==> i < |old(Regions())| && old(Regions())[i] == d && d.addr == addr
      ensures found ==> Regions() == old(Regions())[..i] + old(Regions())[i + 1..]
      ensures old(Apart()) ==> Apart()
    {
      hide RbTree.Valid; hide WindowOk; hide PlacedOk; hide Recorded; hide RegionsOk; hide Starts; hide AddrLess;
        hide Equivalent;
      var cmp := new RbNode(MmapNode(addr, 0, 0, 0));
      ghost var xs, rs := tree.Elements(), Regions();
      i := 0;
      var node := tree.Find(cmp);
      d := cmp.data;
      found := node != tree.head;
      NoneEquivalent(xs, cmp);
      if found {
        i :| 0 <= i < |xs| && xs[i] == node && Equivalent(AddrLess, node, cmp);
        d := node.data;
        SameStart(node, cmp);
        RemoveData(xs, i);
        OneRemoved(rs, highLevel, placed, i);
        var _ := tree.Erase(node, i);
      }
    }
  }

  datatype Call = MapCall(addr: nat, size: nat, perm: nat, flags: nat) | UnmapCall(addr: nat)

  /** Any sequence of calls, successful or not: as long as sizes are positive and no caller chooses an
      address in the window, the regions that the kernel has placed never overlap, neither those that
      are there nor those that have been. */
  method Run(obj: MmapObj, calls: seq<Call>)
    requires obj.Valid() && obj.Apart()
    requires forall k :: 0 <= k < |calls| && calls[k].MapCall? ==> Fair(calls[k].addr, calls[k].size, calls[k].flags)
    modifies obj, obj.tree, obj.tree.repr
    ensures obj.Valid() && obj.Apart() && old(obj.placed) <= obj.placed
  {
    hide RbTree.Valid; hide MmapObj.Apart; hide Fair; hide RegionsOk; hide AddrLess; hide Inserted; hide Starts;
    for k := 0 to |calls|
      invariant obj.Valid() && obj.Apart() && old(obj.placed) <= obj.placed
      invariant fresh(obj.tree.repr - old(obj.tree.repr))
    {
      match calls[k] {
        case MapCall(addr, size, perm, flags) =>
          var _, _, _ := obj.Map(addr, size, perm, flags);
        case UnmapCall(addr) =>
          var _, _, _ := obj.Remove(addr);
      }
    }
  }

  /** Only the first entry is the one the sentinel has as leftmost. */
  lemma FirstEntry(tree: RbTree, i: nat)
    requires tree.Valid() && i <= |tree.Elements()|
    ensures At(tree.Elements(), i, tree.head) == tree.head.left <==> i == 0
  {
    InorderNodes(tree.tree);
    DistinctNoDup(tree.tree);
    assert i < |tree.Elements()| ==> tree.Elements()[i] in Nodes(tree.tree);
  }

  /** MAP_PRIVATE and MAP_SHARED together are refused. */
  predicate Mixed(flags: nat)
  {
    HasFlag(flags, MAP_PRIVATE) && HasFlag(flags, MAP_SHARED)
  }

  /** A region starts at the address. */
  ghost predicate Starts(rs: seq<Data>, a: nat)
  {
    exists k :: 0 <= k < |rs| && rs[k].addr == a
  }

  /** The region has been put in its place by start address. */
  ghost predicate Inserted(rs: seq<Data>, d: Data, i: nat, rs': seq<Data>)
  {
    && i <= |rs| && rs' == rs[..i] + [d] + rs[i..]
    && (forall k :: 0 <= k < i ==> rs[k].addr < d.addr)
    && (forall k :: i <= k < |rs| ==> d.addr < rs[k].addr)
  }

  lemma UpperByAddr(xs: seq<RbNode>, v: RbNode, i: nat)
    requires IsUpper(xs, AddrLess, v, i)
    ensures i <= |xs|
    ensures forall j :: 0 <= j < i ==> xs[j].data.addr <= v.data.addr
    ensures forall j :: i <= j < |xs| ==> v.data.addr < xs[j].data.addr
  {
  }

  lemma SameStart(n: RbNode, v: RbNode)
    ensures Equivalent(AddrLess, n, v) <==> n.data.addr == v.data.addr
  {
  }

  lemma NoneEquivalent(xs: seq<RbNode>, v: RbNode)
    ensures (forall k :: 0 <= k < |xs| ==> !Equivalent(AddrLess, xs[k], v)) <==> !Starts(DataOf(xs), v.data.addr)
  {
    forall k | 0 <= k < |xs| ensures Equivalent(AddrLess, xs[k], v) <==> DataOf(xs)[k].addr == v.data.addr {}
  }

  lemma InsertData(xs: seq<RbNode>, node: RbNode, i: nat)
    requires i <= |xs|
    ensures DataOf(xs[..i] + [node] + xs[i..]) == DataOf(xs)[..i] + [node.data] + DataOf(xs)[i..]
  {
  }

  lemma RemoveData(xs: seq<RbNode>, i: nat)
    requires i < |xs|
    ensures DataOf(xs[..i] + xs[i + 1..]) == DataOf(xs)[..i] + DataOf(xs)[i + 1..]
  {
  }

  lemma InsertedOk(rs: seq<Data>, d: Data, i: nat)
    requires RegionsOk(rs) && i <= |rs| && d.MmapNode? && d.addr % PGSIZE == 0 && d.sz % PGSIZE == 0
    requires (forall k :: 0 <= k < i ==> rs[k].addr <= d.addr) && (forall k :: i <= k < |rs| ==> d.addr < rs[k].addr)
    requires !Starts(rs, d.addr)
    ensures Inserted(rs, d, i, rs[..i] + [d] + rs[i..]) && RegionsOk(rs[..i] + [d] + rs[i..])
  {
    var r := rs[..i] + [d] + rs[i..];
    forall k | 0 <= k < |r| ensures r[k] == if k < i then rs[k] else if k == i then d else rs[k - 1] {}
  }

  /** A request that leaves the address to the kernel never fails, and the new region overlaps none. */
  lemma KernelPlacesApart(rs: seq<Data>, high: nat, addr: nat, size: nat, perm: nat, flags: nat, i: nat, rs': seq<Data>)
    requires RegionsOk(rs) && WindowOk(rs, high) && size > 0 && KernelPlaces(addr, flags)
    ensures !Starts(rs, PlaceFor(addr, flags, high))
    ensures Inserted(rs, Wanted(addr, size, perm, flags, high), i, rs') ==>
      && i == |rs| && WindowOk(rs', high + PageRoundUp(size))
      && forall k :: 0 <= k < |rs| ==> !Meet(rs[k], Wanted(addr, size, perm, flags, high))
  {
    forall k | 0 <= k < |rs| ensures rs[k].addr != WINDOW + high {}
    var d := Wanted(addr, size, perm, flags, high);
    assert d.sz > 0;
    if Inserted(rs, d, i, rs') {
      NewInWindow(rs, high, i, d);
      assert rs' == rs + [d];
    }
  }

  /** The region made for a request, bit by bit: whole pages that are enough; at the mark for an anonymous
      request for page 0 without MAP_ZERO, at the page asked for otherwise; private unless it is shared. */
  predicate AsAsked(d: Data, addr: nat, size: nat, perm: nat, flags: nat, high: nat)
  {
    && d.MmapNode? && d.sz % 4096 == 0 && size <= d.sz < size + 4096 && d.perm == perm
    && d.addr == (if addr < 4096 && flags % 2 == 1 && flags / 8 % 2 == 0 then 0x20_0000_0000 + high
                  else addr - addr % 4096)
    && (flags / 4 % 2 == 1 ==> d.flag == flags)
    && (flags / 4 % 2 == 0 ==> d.flag / 2 % 2 == 1 && d.flag / 4 == flags / 4 && d.flag % 2 == flags % 2)
  }

  lemma WantedMeans(addr: nat, size: nat, perm: nat, flags: nat, high: nat)
    ensures AsAsked(Wanted(addr, size, perm, flags, high), addr, size, perm, flags, high)
  {
    RoundedUp(size);
    PrivateBit(flags);
    hide PageRoundUp; hide WithFlag;
  }

  lemma RoundedUp(size: nat)
    ensures PageRoundUp(size) % 4096 == 0 && size <= PageRoundUp(size) < size + 4096
  {
  }

  lemma PrivateBit(flags: nat)
    ensures var f := WithFlag(flags, MAP_PRIVATE); f / 2 % 2 == 1 && f / 4 == flags / 4 && f % 2 == flags % 2
  {
    TwoBits(flags / 4, flags % 4);
    if !HasFlag(flags, MAP_PRIVATE) { TwoBits(flags / 4, flags % 4 + 2); }
  }

  /** Bits 1 and 2 of a number with `q` above them. */
  lemma TwoBits(q: nat, m: nat)
    requires m < 4
    ensures var x := 4 * q + m; x / 4 == q && x / 2 % 2 == (if m < 2 then 0 else 1) && x % 2 == m % 2
  {
    assert (4 * q + m) / 2 == 2 * q + m / 2;
  }

  lemma InsertedThere(rs: seq<Data>, d: Data, i: nat, rs': seq<Data>)
    ensures Inserted(rs, d, i, rs') ==> i < |rs'| && rs'[i] == d
  {
  }

  lemma PlaceIs(addr: nat, size: nat, perm: nat, flags: nat, high: nat)
    ensures var d := Wanted(addr, size, perm, flags, high);
      && d.addr == (if KernelPlaces(addr, flags) then WINDOW + high else PageRoundDown(addr)) &&
        d.sz == PageRoundUp(size)
    ensures KernelPlaces(addr, flags) <==>
      PageRoundDown(addr) == 0 && !HasFlag(flags, MAP_ZERO) &&
      HasFlag(flags, MAP_ANONYMOUS)
  {
  }

  /** Mapping keeps the window's account, wherever the region is placed. */
  lemma MapKeepsApart(rs: seq<Data>, high: nat, placed: seq<Data>, addr: nat, size: nat, perm: nat, flags: nat,
            i: nat, rs': seq<Data>)
    requires RegionsOk(rs) && WindowOk(rs, high) && PlacedOk(placed, high) && Recorded(rs, placed) &&
      Fair(addr, size, flags)
    ensures KernelPlaces(addr, flags) ==> !Starts(rs, PlaceFor(addr, flags, high))
    ensures var d := Wanted(addr, size, perm, flags, high);
      Inserted(rs, d, i, rs') ==>
        if KernelPlaces(addr, flags) then
          WindowOk(rs', high + PageRoundUp(size)) && PlacedOk(placed + [d], high + PageRoundUp(size)) &&
            Recorded(rs', placed + [d])
        else WindowOk(rs', high) && Recorded(rs', placed)
  {
    var d := Wanted(addr, size, perm, flags, high);
    PositiveSize(size);
    if KernelPlaces(addr, flags) {
      KernelPlacesApart(rs, high, addr, size, perm, flags, i, rs');
    } else if Inserted(rs, d, i, rs') {
      NewBelow(rs, high, i, d);
    }
    if Inserted(rs, d, i, rs') {
      forall k | 0 <= k < |rs'| ensures rs'[k] == d || rs'[k] in rs {}
    }
  }

  lemma PositiveSize(size: nat)
    ensures size > 0 ==> PageRoundUp(size) > 0
  {
  }

  function WithFlag(flag: nat, bit: nat): nat
    requires bit > 0
  {
    if HasFlag(flag, bit) then flag else flag + bit
  }

  lemma PageMultiples(addr: nat, size: nat, high: nat)
    requires high % PGSIZE == 0
    ensures PageRoundDown(addr) % PGSIZE == 0 && PageRoundUp(size) % PGSIZE == 0
    ensures (WINDOW + high) % PGSIZE == 0 && (high + PageRoundUp(size)) % PGSIZE == 0
  {
  }

  lemma PrivateKeeps(flag: nat)
    ensures HasFlag(WithFlag(flag, MAP_PRIVATE), MAP_ZERO) == HasFlag(flag, MAP_ZERO)
    ensures HasFlag(WithFlag(flag, MAP_PRIVATE), MAP_ANONYMOUS) == HasFlag(flag, MAP_ANONYMOUS)
    ensures HasFlag(WithFlag(flag, MAP_PRIVATE), MAP_PRIVATE) &&
      HasFlag(WithFlag(flag, MAP_PRIVATE), MAP_SHARED) == HasFlag(flag, MAP_SHARED)
  {
  }

  /** The kernel chooses the address. */
  predicate KernelPlaces(addr: nat, flags: nat)
  {
    PageRoundDown(addr) == 0 && !HasFlag(flags, MAP_ZERO) && HasFlag(flags, MAP_ANONYMOUS)
  }

  function PlaceFor(addr: nat, flags: nat, high: nat): nat
  {
    if KernelPlaces(addr, flags) then WINDOW + high else PageRoundDown(addr)
  }

  function Wanted(addr: nat, size: nat, perm: nat, flags: nat, high: nat): Data
  {
    MmapNode(PlaceFor(addr, flags, high), PageRoundUp(size), perm,
             if HasFlag(flags, MAP_SHARED) then flags else WithFlag(flags, MAP_PRIVATE))
  }
}
