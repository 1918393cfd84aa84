/** Freeing a page table (kernel/vm.c): every table of the tree is released exactly once. */
module VmFree {
  import opened Common
  import opened VmTables

  /** The table at `q` belongs to the subtree at `p`. */
  predicate Under(q: Pos, p: Pos)
  {
    q == p || (p.Top? && q.root == p.root) || (p.Mid? && q.Low? && q.root == p.root && q.i == p.i)
  }

  /** The entry of the table at `p` through which the table at `q`, below it, is reached. */
  function Branch(q: Pos, p: Pos): nat
  {
    if p.Top? && !q.Top? then q.i else if q.Low? then q.j else 0
  }

  /** The pages of the subtree at `p`. */
  ghost function Pages(at: Layout, p: Pos): set<nat>
  {
    set q | q in at && Under(q, p) :: at[q]
  }

  /** Those reached through the first `i` entries of the table at `p`. */
  ghost function PagesBelow(at: Layout, p: Pos, i: nat): set<nat>
  {
    set q | q in at && Under(q, p) && q != p && Branch(q, p) < i :: at[q]
  }

  /** A table of the lowest level leads to no other. */
  predicate NoTables(ts: Tables, at: Layout, q: Pos)
    requires q in at && at[q] in ts
  {
    q.Low? ==> forall i :: 0 <= i < |ts[at[q]]| ==> !IsPageTable(ts[at[q]][i])
  }

  predicate NodeOk(ts: Tables, at: Layout, q: Pos, p: Pos)
    requires q in at
  {
    at[q] in ts && |ts[at[q]]| == ENTRIES && at[q] % PGSIZE == 0 && at[q] > 0 && KidsOk(ts, at, q) &&
      (q != p ==> LinkOk(ts, at, q)) && NoTables(ts, at, q)
  }

  /** The tables at and below `p` form a tree. */
  ghost predicate SubOk(ts: Tables, at: Layout, p: Pos)
  {
    && p in at
    && (forall q :: q in at && Under(q, p) ==> NodeOk(ts, at, q, p) && (q != p ==> Parent(q) in at))
    && (forall q, r :: q in at && r in at && at[q] == at[r] ==> q == r)
  }

  /** Each page of `s` once. */
  ghost predicate OnceEach(order: seq<nat>, s: set<nat>)
  {
    && (forall i, j :: 0 <= i < j < |order| ==> order[i] != order[j])
    && (forall x :: x in order <==> x in s)
  }

  lemma OnceEachAppend(a: seq<nat>, s: set<nat>, b: seq<nat>, t: set<nat>)
    requires OnceEach(a, s) && OnceEach(b, t) && s !! t
    ensures OnceEach(a + b, s + t)
  {
    var ab := a + b;
    forall i, j | 0 <= i < j < |ab| ensures ab[i] != ab[j] {
      if i < |a| <= j { assert ab[i] in a && ab[j] in b; }
    }
  }

  /** The memory while the table `pt` is being freed: the pages of `done` are gone, `pt` itself has its
      entries from `i` on, and everything else is as before. */
  ghost predicate Freeing(ts0: Tables, ts: Tables, pt: nat, done: set<nat>, i: nat)
  {
    && (forall t :: t in ts <==> t in ts0 && t !in done)
    && (forall t :: t in ts && t != pt ==> ts[t] == ts0[t])
    && pt in ts && pt in ts0 && |ts[pt]| == |ts0[pt]| == ENTRIES && i <= ENTRIES
    && forall j :: i <= j < ENTRIES ==> ts[pt][j] == ts0[pt][j]
  }

  /** A valid entry leads to a subtree that is still complete. */
  lemma ChildReady(ts0: Tables, ts: Tables, at: Layout, p: Pos, i: nat)
    requires SubOk(ts0, at, p) && i < ENTRIES && Freeing(ts0, ts, at[p], PagesBelow(at, p, i), i)
    requires IsPageTable(ts0[at[p]][i])
    ensures var c := Child(p, i);
      && !p.Low? && c in at && PTE2PA(ts0[at[p]][i]) == at[c] && SubOk(ts, at, c)
      && Pages(at, c) !! PagesBelow(at, p, i) && at[p] !in Pages(at, c)
      && PagesBelow(at, p, i + 1) == PagesBelow(at, p, i) + Pages(at, c)
  {
    var c := Child(p, i);
    assert NodeOk(ts0, at, p, p);
    assert !p.Low?;
    assert c in at && Under(c, p) && NodeOk(ts0, at, c, p);
    TablePte(at[c]);
    forall q | q in at && Under(q, c) ensures NodeOk(ts, at, q, c) && (q != c ==> Parent(q) in at) {
      StillThere(ts0, ts, at, p, i, q);
    }
    BranchPages(ts0, at, p, i);
  }

  lemma StillThere(ts0: Tables, ts: Tables, at: Layout, p: Pos, i: nat, q: Pos)
    requires SubOk(ts0, at, p) && Freeing(ts0, ts, at[p], PagesBelow(at, p, i), i) && !p.Low?
    requires q in at && Under(q, Child(p, i)) && Child(p, i) in at
    ensures NodeOk(ts, at, q, Child(p, i)) && (q != Child(p, i) ==> Parent(q) in at)
  {
    hide IsValid; hide IsPageTable;
    assert NodeOk(ts0, at, q, p);
    assert at[q] !in PagesBelow(at, p, i);
    if q != Child(p, i) {
      assert NodeOk(ts0, at, Parent(q), p);
      assert at[Parent(q)] !in PagesBelow(at, p, i);
    }
  }

  lemma BranchPages(ts: Tables, at: Layout, p: Pos, i: nat)
    requires SubOk(ts, at, p) && !p.Low?
    ensures PagesBelow(at, p, i + 1) == PagesBelow(at, p, i) + Pages(at, Child(p, i))
  {
    forall q | q in at ensures Under(q, p) && q != p && Branch(q, p) == i <==> Under(q, Child(p, i)) {}
  }

  /** An entry that leads to no table has no pages behind it. */
  lemma NothingBehind(ts: Tables, at: Layout, p: Pos, i: nat)
    requires SubOk(ts, at, p) && i < ENTRIES && !IsPageTable(ts[at[p]][i])
    ensures PagesBelow(at, p, i + 1) == PagesBelow(at, p, i)
  {
    forall q | q in at && Under(q, p) && q != p ensures Branch(q, p) != i {
      assert NodeOk(ts, at, q, p);
      if Parent(q) == p {
        TablePte(at[q]);
      } else {
        assert NodeOk(ts, at, Parent(q), p);
        TablePte(at[Parent(q)]);
      }
    }
  }

  lemma AllBelow(ts: Tables, at: Layout, p: Pos)
    requires SubOk(ts, at, p)
    ensures PagesBelow(at, p, 0) == {} && at[p] !in PagesBelow(at, p, ENTRIES)
    ensures Pages(at, p) == PagesBelow(at, p, ENTRIES) + {at[p]}
  {
    forall q | q in at && Under(q, p) && q != p ensures Branch(q, p) < ENTRIES {
      assert NodeOk(ts, at, q, p);
      if Parent(q) != p { assert NodeOk(ts, at, Parent(q), p); }
    }
  }

  /** The subtree at `p` is gone from memory, and nothing else. */
  ghost predicate Freed(ts0: Tables, ts: Tables, at: Layout, p: Pos)
  {
    && (forall t :: t in ts <==> t in ts0 && t !in Pages(at, p))
    && (forall t :: t in ts ==> ts[t] == ts0[t])
  }

  function Height(p: Pos): nat
  {
    if p.Top? then 2 else if p.Mid? then 1 else 0
  }

  lemma StartFreeing(ts: Tables, at: Layout, p: Pos)
    requires SubOk(ts, at, p)
    ensures Freeing(ts, ts, at[p], PagesBelow(at, p, 0), 0) && OnceEach([], PagesBelow(at, p, 0))
    ensures PagesBelow(at, p, 0) == {} && at[p] > 0
  {
    AllBelow(ts, at, p);
    assert NodeOk(ts, at, p, p);
  }

  /** The child's subtree has been freed, and the entry that led to it cleared. */
  lemma ChildFreed(ts0: Tables, ts: Tables, ts1: Tables, ts2: Tables, at: Layout, p: Pos, i: nat, order: seq<nat>,
            more: seq<nat>)
    requires SubOk(ts0, at, p) && i < ENTRIES && Freeing(ts0, ts, at[p], PagesBelow(at, p, i), i)
    requires IsPageTable(ts0[at[p]][i]) && Freed(ts, ts1, at, Child(p, i)) && at[p] in ts1 && |ts1[at[p]]| == ENTRIES
    requires ts2 == ts1[at[p] := ts1[at[p]][i := 0]]
    requires OnceEach(order, PagesBelow(at, p, i)) && OnceEach(more, Pages(at, Child(p, i)))
    ensures Freeing(ts0, ts2, at[p], PagesBelow(at, p, i + 1), i + 1)
    ensures OnceEach(order + more, PagesBelow(at, p, i + 1))
  {
    ChildReady(ts0, ts, at, p, i);
    OnceEachAppend(order, PagesBelow(at, p, i), more, Pages(at, Child(p, i)));
  }

  lemma NotFreed(ts0: Tables, ts: Tables, at: Layout, p: Pos, i: nat, ts1: Tables)
    requires SubOk(ts0, at, p) && i < ENTRIES && Freeing(ts0, ts, at[p], PagesBelow(at, p, i), i) &&
      IsPageTable(ts0[at[p]][i])
    requires Freed(ts, ts1, at, Child(p, i))
    ensures at[p] in ts1 && |ts1[at[p]]| == ENTRIES
  {
    ChildReady(ts0, ts, at, p, i);
  }

  lemma AllFreed(ts0: Tables, ts: Tables, at: Layout, p: Pos, order: seq<nat>)
    requires SubOk(ts0, at, p) && Freeing(ts0, ts, at[p], PagesBelow(at, p, ENTRIES), ENTRIES)
    requires OnceEach(order, PagesBelow(at, p, ENTRIES))
    ensures Freed(ts0, ts - {at[p]}, at, p) && OnceEach(order + [at[p]], Pages(at, p))
    ensures Pages(at, p) == PagesBelow(at, p, ENTRIES) + {at[p]}
  {
    AllBelow(ts0, at, p);
    OnceEachAppend(order, PagesBelow(at, p, ENTRIES), [at[p]], {at[p]});
  }

  lemma WholeTree(ts: Tables, at: Layout, free: set<nat>, root: nat)
    requires Ok(ts, at, free) && Top(root) in at && LeavesOk(ts, at, root)
    ensures SubOk(ts, at, Top(root)) && at[Top(root)] == root
  {
    forall q | q in at ensures PageOk(ts, at, free, q) && LinkOk(ts, at, q) && KidsOk(ts, at, q) {}
    forall q | q in at && q.root == root ensures NoTables(ts, at, q) {
      if q.Low? {
        forall i | 0 <= i < ENTRIES ensures !IsPageTable(ts[at[q]][i]) { var va := EntryAddress(ts, at, free, q, i); }
      }
    }
  }

  /** With the tree at `root` gone, the other trees are as they were. */
  lemma TreeGone(ts0: Tables, ts: Tables, at: Layout, free: set<nat>, root: nat)
    requires Ok(ts0, at, free) && Top(root) in at && Freed(ts0, ts, at, Top(root))
    ensures var at' := map q | q in at && q.root != root :: at[q];
      && Ok(ts, at', free + Pages(at, Top(root)))
      && forall r: nat, a: nat :: Leaf(ts, at', r, a) == if r == root then 0 else Leaf(ts0, at, r, a)
  {
    var at', free' := map q | q in at && q.root != root :: at[q], free + Pages(at, Top(root));
    forall q | q in at' ensures at[q] !in Pages(at, Top(root)) {}
    forall q | q in at' ensures PageOk(ts, at', free', q) && LinkOk(ts, at', q) && KidsOk(ts, at', q) {
      assert PageOk(ts0, at, free, q) && LinkOk(ts0, at, q) && KidsOk(ts0, at, q);
    }
    forall f | f in free' ensures f % PGSIZE == 0 && f > 0 {
      if f in Pages(at, Top(root)) {
        var q :| q in at && Under(q, Top(root)) && at[q] == f;
        assert PageOk(ts0, at, free, q);
      }
    }
    TreeGoneLeaves(ts0, ts, at, free, root);
  }

  lemma TreeGoneLeaves(ts0: Tables, ts: Tables, at: Layout, free: set<nat>, root: nat)
    requires Ok(ts0, at, free) && Top(root) in at && Freed(ts0, ts, at, Top(root))
    ensures var at' := map q | q in at && q.root != root :: at[q];
      forall r: nat, a: nat :: Leaf(ts, at', r, a) == if r == root then 0 else Leaf(ts0, at, r, a)
  {
    var at' := map q | q in at && q.root != root :: at[q];
    forall q | q in at' ensures at[q] !in Pages(at, Top(root)) {}
    forall r: nat, a: nat ensures Leaf(ts, at', r, a) == if r == root then 0 else Leaf(ts0, at, r, a) {
      var q := PosOf(r, a, 0);
      if q in at && r != root { assert PageOk(ts0, at, free, q); }
    }
  }

  lemma PagesNotFree(ts: Tables, at: Layout, free: set<nat>, root: nat)
    requires Ok(ts, at, free)
    ensures Pages(at, Top(root)) !! free
  {
    forall q | q in at ensures at[q] !in free { assert PageOk(ts, at, free, q); }
  }

  lemma FreeingAt(ts0: Tables, ts: Tables, pt: nat, done: set<nat>, i: nat)
    requires Freeing(ts0, ts, pt, done, i) && i < ENTRIES
    ensures pt in ts && pt in ts0 && |ts[pt]| == |ts0[pt]| == ENTRIES && ts[pt][i] == ts0[pt][i]
  {
  }

  lemma FreeingOn(ts0: Tables, ts: Tables, pt: nat, done: set<nat>, i: nat)
    requires Freeing(ts0, ts, pt, done, i) && i < ENTRIES
    ensures Freeing(ts0, ts, pt, done, i + 1)
  {
  }
}
