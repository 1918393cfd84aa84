/** Search order and bounds on the in-order sequence of a tree. */
module RbOrder {
  import opened Common
  import opened RbShape
  import opened RbBalance

  /** The sentinel's cached ends. */
  function First(xs: seq<RbNode>, head: RbNode): RbNode
  {
    if xs == [] then head else xs[0]
  }

  function Last(xs: seq<RbNode>, head: RbNode): RbNode
  {
    if xs == [] then head else xs[|xs| - 1]
  }

  /** The node at place `i`; the sentinel is past the end. */
  function At(xs: seq<RbNode>, i: nat, head: RbNode): RbNode
  {
    if i < |xs| then xs[i] else head
  }

  lemma FirstAt(xs: seq<RbNode>, head: RbNode)
    ensures First(xs, head) == At(xs, 0, head)
  {
  }

  /** The user's comparison function; it looks at the nodes' data only. */
  type Order = (Data, Data) -> bool

  ghost predicate StrictWeakOrder(comp: Order)
  {
    && (forall x :: !comp(x, x))
    && (forall x, y, z :: comp(x, y) && comp(y, z) ==> comp(x, z))
    && (forall x, y, z :: !comp(x, y) && !comp(y, z) ==> !comp(x, z))
  }

  predicate Less(comp: Order, x: RbNode, y: RbNode)
  {
    comp(x.data, y.data)
  }

  predicate Equivalent(comp: Order, x: RbNode, y: RbNode)
  {
    !Less(comp, x, y) && !Less(comp, y, x)
  }

  /** In a multi tree equal nodes may repeat; otherwise the order is strict. */
  ghost predicate Sorted(xs: seq<RbNode>, comp: Order, multi: bool)
  {
    forall i, j :: 0 <= i < j < |xs| ==>
      if multi then !Less(comp, xs[j], xs[i]) else Less(comp, xs[i], xs[j])
  }

  /** `i` is the place of the first node that is not less than `v`. */
  ghost predicate IsLower(xs: seq<RbNode>, comp: Order, v: RbNode, i: nat)
  {
    && i <= |xs|
    && (forall k :: 0 <= k < i ==> Less(comp, xs[k], v))
    && (forall k :: i <= k < |xs| ==> !Less(comp, xs[k], v))
  }

  /** `i` is the place of the first node that is greater than `v`. */
  ghost predicate IsUpper(xs: seq<RbNode>, comp: Order, v: RbNode, i: nat)
  {
    && i <= |xs|
    && (forall k :: 0 <= k < i ==> !Less(comp, v, xs[k]))
    && (forall k :: i <= k < |xs| ==> Less(comp, v, xs[k]))
  }

  /** The lower bound lies between places `i` and `j`; likewise the upper bound. */
  ghost predicate LowerWithin(xs: seq<RbNode>, comp: Order, v: RbNode, i: nat, j: nat)
  {
    && i <= |xs| && j <= |xs|
    && (forall k :: 0 <= k < i ==> Less(comp, xs[k], v))
    && (forall k :: j <= k < |xs| ==> !Less(comp, xs[k], v))
  }

  ghost predicate UpperWithin(xs: seq<RbNode>, comp: Order, v: RbNode, i: nat, j: nat)
  {
    && i <= |xs| && j <= |xs|
    && (forall k :: 0 <= k < i ==> !Less(comp, v, xs[k]))
    && (forall k :: j <= k < |xs| ==> Less(comp, v, xs[k]))
  }

  lemma NarrowUpper(xs: seq<RbNode>, comp: Order, multi: bool, v: RbNode, i: nat, j: nat, m: nat)
    requires StrictWeakOrder(comp) && Sorted(xs, comp, multi) && m < |xs| && UpperWithin(xs, comp, v, i, j)
    ensures if Less(comp, v, xs[m]) then UpperWithin(xs, comp, v, i, m) else UpperWithin(xs, comp, v, m + 1, j)
  {
    forall k | 0 <= k < |xs| && k != m
      ensures m < k && Less(comp, v, xs[m]) ==> Less(comp, v, xs[k])
      ensures k < m && !Less(comp, v, xs[m]) ==> !Less(comp, v, xs[k])
    {
      var a, b := if m < k then xs[m] else xs[k], if m < k then xs[k] else xs[m];
      assert !comp(b.data, a.data);
    }
  }

  lemma NarrowLower(xs: seq<RbNode>, comp: Order, multi: bool, v: RbNode, i: nat, j: nat, m: nat)
    requires StrictWeakOrder(comp) && Sorted(xs, comp, multi) && m < |xs| && LowerWithin(xs, comp, v, i, j)
    ensures if Less(comp, xs[m], v) then LowerWithin(xs, comp, v, m + 1, j) else LowerWithin(xs, comp, v, i, m)
  {
    forall k | 0 <= k < |xs| && k != m
      ensures k < m && Less(comp, xs[m], v) ==> Less(comp, xs[k], v)
      ensures m < k && !Less(comp, xs[m], v) ==> !Less(comp, xs[k], v)
    {
      var a, b := if m < k then xs[m] else xs[k], if m < k then xs[k] else xs[m];
      assert !comp(b.data, a.data);
    }
  }

  /** Between the bounds lie exactly the equivalent nodes. */
  lemma BoundsEncloseEquivalents(xs: seq<RbNode>, comp: Order, v: RbNode, i: nat, j: nat)
    requires StrictWeakOrder(comp) && IsLower(xs, comp, v, i) && IsUpper(xs, comp, v, j)
    ensures i <= j
    ensures forall k :: 0 <= k < |xs| ==> (i <= k < j <==> Equivalent(comp, xs[k], v))
  {
    if j < |xs| {
      var x := xs[j];
      assert Less(comp, v, x) && !Less(comp, x, v);
    }
  }

  /** Inserting at the upper bound keeps the order; in a tree without repetitions that is so if and
      only if the node before is strictly less, that is, if no equivalent node is there yet. */
  lemma InsertAtUpper(xs: seq<RbNode>, comp: Order, multi: bool, v: RbNode, i: nat)
    requires StrictWeakOrder(comp) && Sorted(xs, comp, multi) && IsUpper(xs, comp, v, i)
    ensures multi || i == 0 || Less(comp, xs[i - 1], v) ==> Sorted(xs[..i] + [v] + xs[i..], comp, multi)
    ensures !multi ==>
      ((i == 0 || Less(comp, xs[i - 1], v)) <==> forall k :: 0 <= k < |xs| ==> !Equivalent(comp, xs[k], v))
    ensures !multi && i > 0 && !Less(comp, xs[i - 1], v) ==> Equivalent(comp, xs[i - 1], v)
  {
    var ys := xs[..i] + [v] + xs[i..];
    if multi || i == 0 || Less(comp, xs[i - 1], v) {
      forall a, b | 0 <= a < b < |ys|
        ensures if multi then !Less(comp, ys[b], ys[a]) else Less(comp, ys[a], ys[b])
      {
        var x, y := if a < i then a else a - 1, if b < i then b else b - 1;
        if a != i && b != i {
          assert ys[a] == xs[x] && ys[b] == xs[y] && x < y;
        } else if a == i {
          assert ys[b] == xs[y] && Less(comp, v, xs[y]);
        } else {
          assert ys[a] == xs[x] && !Less(comp, v, xs[x]);
          if !multi {
            if x < i - 1 { assert Less(comp, xs[x], xs[i - 1]); }
          }
        }
      }
    }
    if !multi && (i == 0 || Less(comp, xs[i - 1], v)) {
      forall k | 0 <= k < |xs| ensures !Equivalent(comp, xs[k], v) {
        if k < i - 1 { assert Less(comp, xs[k], xs[i - 1]); }
      }
    }
  }

  lemma SortedDelete(xs: seq<RbNode>, comp: Order, multi: bool, i: nat)
    requires Sorted(xs, comp, multi) && i < |xs|
    ensures Sorted(xs[..i] + xs[i + 1..], comp, multi)
  {
  }

  // ---------------------------------------------------------------------------------------
  // Places

  /** The zippers of the two subtrees of the focus. */
  function GoLeft(p: Path, t: Tree): Path
    requires t.Node?
  {
    Step(p, true, t.node, t.color, t.right)
  }

  function GoRight(p: Path, t: Tree): Path
    requires t.Node?
  {
    Step(p, false, t.node, t.color, t.left)
  }

  ghost function Place(p: Path, t: Tree): nat
    requires t.Node?
  {
    |Before(p)| + |Inorder(t.left)|
  }

  /** Where the focus stands in the in-order sequence. */
  lemma Placed(p: Path, t: Tree)
    requires t.Node?
    ensures |Inorder(Plug(p, t))| == |Before(p)| + |Inorder(t)| + |After(p)|
    ensures Place(p, t) < |Inorder(Plug(p, t))| && Inorder(Plug(p, t))[Place(p, t)] == t.node
    ensures Inorder(Plug(p, t))[..Place(p, t)] == Before(p) + Inorder(t.left)
    ensures Inorder(Plug(p, t))[Place(p, t) + 1..] == Inorder(t.right) + After(p)
  {
    InorderPlug(p, t);
    var b, l, r, a := Before(p), Inorder(t.left), Inorder(t.right), After(p);
    SplitAround(b, l, t.node, r, a);
    assert Inorder(t) == l + [t.node] + r;
  }

  lemma SplitAround(b: seq<RbNode>, l: seq<RbNode>, x: RbNode, r: seq<RbNode>, a: seq<RbNode>)
    ensures var xs := b + (l + [x] + r) + a;
      && xs == (b + l) + [x] + (r + a)
      && xs[|b| + |l|] == x && xs[..|b| + |l|] == b + l && xs[|b| + |l| + 1..] == r + a
  {
    assert b + (l + [x] + r) + a == (b + l) + [x] + (r + a);
  }

  lemma PlugLeaf(p: Path)
    ensures Inorder(Plug(p, Leaf)) == Before(p) + After(p)
    ensures Nodes(Plug(p, Leaf)) == PathNodes(p)
  {
    InorderPlug(p, Leaf);
    PlugNodes(p, Leaf);
    assert Before(p) + [] == Before(p);
  }

  lemma PlugOne(p: Path, n: RbNode, c: Color)
    ensures Inorder(Plug(p, Node(Leaf, n, c, Leaf))) == Before(p) + [n] + After(p)
    ensures Nodes(Plug(p, Node(Leaf, n, c, Leaf))) == PathNodes(p) + {n}
  {
    InorderPlug(p, Node(Leaf, n, c, Leaf));
    PlugNodes(p, Node(Leaf, n, c, Leaf));
    assert Inorder(Node(Leaf, n, c, Leaf)) == [n];
  }

  /** The zipper of a node that occurs in the tree. */
  ghost function Locate(p: Path, t: Tree, n: RbNode): (r: (Path, Tree))
    requires n in Nodes(t)
    ensures Plug(r.0, r.1) == Plug(p, t) && r.1.Node? && r.1.node == n
    decreases t
  {
    if t.node == n then (p, t)
    else if n in Nodes(t.left) then Locate(GoLeft(p, t), t.left, n)
    else Locate(GoRight(p, t), t.right, n)
  }

  /** Balance and structure may be read off at any zipper of the tree. */
  lemma {:induction false} LocateBalance(p: Path, t: Tree, n: RbNode)
    requires n in Nodes(t) && Balanced(p, t)
    ensures Balanced(Locate(p, t, n).0, Locate(p, t, n).1)
    decreases t
  {
    if t.node != n {
      if n in Nodes(t.left) {
        LocateBalance(GoLeft(p, t), t.left, n);
      } else {
        LocateBalance(GoRight(p, t), t.right, n);
      }
    }
  }

  /** The tree around and below the focus is balanced. */
  ghost predicate Balanced(p: Path, t: Tree)
  {
    RedBlack(t) && PathRedBlack(p, BlackHeight(t)) && (IsRed(t) ==> TakesRed(p))
  }

  lemma BalancedDown(p: Path, t: Tree)
    requires Balanced(p, t) && t.Node?
    ensures Balanced(GoLeft(p, t), t.left) && Balanced(GoRight(p, t), t.right)
  {
  }

  /** A new leaf is red, and its parent may be red as well. */
  lemma NewLeaf(p: Path, n: RbNode)
    requires Balanced(p, Leaf)
    ensures OneRedRed(p, Node(Leaf, n, Red, Leaf))
  {
  }

  /** The leftmost node below the focus, and the rightmost one. */
  ghost function Leftmost(p: Path, t: Tree): (r: (Path, Tree))
    requires t.Node?
    ensures r.1.Node? && r.1.left.Leaf? && Plug(r.0, r.1) == Plug(p, t)
    decreases t
  {
    if t.left.Leaf? then (p, t) else Leftmost(GoLeft(p, t), t.left)
  }

  ghost function Rightmost(p: Path, t: Tree): (r: (Path, Tree))
    requires t.Node?
    ensures r.1.Node? && r.1.right.Leaf? && Plug(r.0, r.1) == Plug(p, t)
    decreases t
  {
    if t.right.Leaf? then (p, t) else Rightmost(GoRight(p, t), t.right)
  }

  /** One path put on top of another. */
  ghost function Extend(p: Path, base: Path): Path
  {
    if p.Top? then base else p.(up := Extend(p.up, base))
  }

  /** The way from a subtree down to its leftmost node, and that node. */
  ghost function Descent(t: Tree): (Path, Tree)
    requires t.Node?
  {
    Leftmost(Top, t)
  }

  lemma {:induction false} LeftmostExtends(p: Path, base: Path, t: Tree)
    requires t.Node?
    ensures Leftmost(Extend(p, base), t) == (Extend(Leftmost(p, t).0, base), Leftmost(p, t).1)
    decreases t
  {
    if t.left.Node? {
      LeftmostExtends(GoLeft(p, t), base, t.left);
    }
  }

  lemma {:induction false} LeftmostTurnsLeft(p: Path, t: Tree)
    requires t.Node?
    ensures Leftmost(p, t).0 == p || (Leftmost(p, t).0.Step? && Leftmost(p, t).0.isLeft)
    ensures Leftmost(p, t).0 == p <==> t.left.Leaf?
    ensures Length(Leftmost(p, t).0) >= Length(p) + (if t.left.Leaf? then 0 else 1)
    decreases t
  {
    if t.left.Node? {
      LeftmostTurnsLeft(GoLeft(p, t), t.left);
    }
  }

  lemma {:induction false} PlugExtends(p: Path, base: Path, t: Tree)
    ensures Plug(Extend(p, base), t) == Plug(base, Plug(p, t))
    ensures Length(Extend(p, base)) == Length(p) + Length(base)
  {
    if p.Step? { PlugExtends(p.up, base, Join(p, t)); }
  }

  lemma {:induction false} ZipExtends(m: Mem, head: RbNode, p: Path, base: Path, t: Tree)
    ensures RepAt(m, head, Extend(p, base), t) <==> RepAt(m, head, base, Plug(p, t))
  {
    if p.Step? {
      ZipUp(m, head, Extend(p, base), t);
      ZipExtends(m, head, p.up, base, Join(p, t));
    }
  }

  /** What is plugged in does not matter for the root above. */
  lemma {:induction false} PlugRoot(p: Path, t: Tree, u: Tree)
    requires p.Step?
    ensures Plug(p, t).Node? && Plug(p, u).Node? && Plug(p, t).node == Plug(p, u).node
  {
    if p.up.Step? { PlugRoot(p.up, Join(p, t), Join(p, u)); }
  }

  /** Balance at the leftmost node of a right subtree, and how much height its hole holds. */
  lemma {:induction false} LeftmostBalance(p: Path, t: Tree)
    requires t.Node? && Balanced(p, t)
    ensures var (q, u) := Leftmost(p, t);
      Balanced(q, u) && q == Extend(Leftmost(Top, t).0, p)
    decreases t
  {
    LeftmostExtends(Top, p, t);
    if t.left.Node? {
      LeftmostBalance(GoLeft(p, t), t.left);
    }
  }

  /** The balance around the hole only depends on the colours of the path. */
  lemma {:induction false} SwapBelow(p: Path, base: Path, n: RbNode, h: nat)
    requires base.Step? && PathRedBlack(Extend(p, base), h)
    ensures PathRedBlack(Extend(p, base.(node := n)), h)
    ensures TakesRed(Extend(p, base)) <==> TakesRed(Extend(p, base.(node := n)))
  {
    if p.Step? {
      SwapBelow(p.up, base, n, h + Blacks(p.color));
    }
  }

  /** The focus `t` has no child besides `f`. */
  ghost predicate OnlyChild(t: Tree, f: Tree)
  {
    t.Node? && ((t.left.Leaf? && f == t.right) || (t.right.Leaf? && f == t.left))
  }

  /** Taking out a node with at most one child leaves balance, or one black node too few. */
  lemma SpliceBalance(p: Path, t: Tree, f: Tree)
    requires Balanced(p, t) && OnlyChild(t, f)
    ensures t.color.Red? ==> Mended(p, f)
    ensures t.color.Black? ==> OneShort(p, f)
  {
    assert RedBlack(t.left) && RedBlack(t.right);
    if f.Node? {
      assert RedBlack(f.left) && RedBlack(f.right);
      assert RedBlack(f.(color := Black));
    }
  }

  /** How the cached ends change when a node with at most one child is taken out. */
  lemma SpliceEnds(head: RbNode, p: Path, t: Tree, f: Tree)
    requires OnlyChild(t, f) && NoDup(Before(p) + Inorder(t) + After(p)) && t.node != head
    ensures var xs, ys := Before(p) + Inorder(t) + After(p), Before(p) + Inorder(f) + After(p);
      && (First(xs, head) != t.node ==> First(ys, head) == First(xs, head))
      && (First(xs, head) == t.node ==> First(ys, head) == (if f.Node? then Inorder(f)[0] else Up(p, head)))
      && (Last(xs, head) != t.node ==> Last(ys, head) == Last(xs, head))
      && (Last(xs, head) == t.node ==>
        Last(ys, head) == (if f.Node? then Inorder(f)[|Inorder(f)| - 1] else Up(p, head)))
  {
    WithOneChild(t, f);
    BesideHole(p, head);
    hide Inorder; hide Before; hide After; hide NoDup; hide First; hide Last; hide OnlyChild;
    FirstSpliced(Before(p), t.node, Inorder(f), Inorder(t), After(p), head);
    LastSpliced(Before(p), t.node, Inorder(f), Inorder(t), After(p), head);
  }

  lemma WithOneChild(t: Tree, f: Tree)
    requires OnlyChild(t, f)
    ensures Inorder(t) == [t.node] + Inorder(f) || Inorder(t) == Inorder(f) + [t.node]
    ensures Inorder(f) == [] <==> f.Leaf?
  {
    if f.Node? { LeftmostIsFirst(Top, f); }
  }

  /** The first of a sequence from which `x` is taken out. */
  lemma FirstSpliced(b: seq<RbNode>, x: RbNode, fs: seq<RbNode>, mid: seq<RbNode>, a: seq<RbNode>, head: RbNode)
    requires (mid == [x] + fs || mid == fs + [x]) && NoDup(b + mid + a) && x != head
    ensures First(b + mid + a, head) != x ==> First(b + fs + a, head) == First(b + mid + a, head)
    ensures First(b + mid + a, head) == x ==>
      b == [] && First(b + fs + a, head) == if fs != [] then fs[0] else First(a, head)
  {
    var xs := b + mid + a;
    var k := |b| + if mid == [x] + fs then 0 else |fs|;
    assert xs[k] == x;
    assert xs[0] == x ==> k == 0;
  }

  lemma LastSpliced(b: seq<RbNode>, x: RbNode, fs: seq<RbNode>, mid: seq<RbNode>, a: seq<RbNode>, head: RbNode)
    requires (mid == [x] + fs || mid == fs + [x]) && NoDup(b + mid + a) && x != head
    ensures Last(b + mid + a, head) != x ==> Last(b + fs + a, head) == Last(b + mid + a, head)
    ensures Last(b + mid + a, head) == x ==>
      a == [] && Last(b + fs + a, head) == if fs != [] then fs[|fs| - 1] else Last(b, head)
  {
    var xs := b + mid + a;
    var k := |b| + if mid == [x] + fs then 0 else |fs|;
    assert xs[k] == x;
    assert xs[|xs| - 1] == x ==> k == |xs| - 1;
  }

  lemma BesideHole(p: Path, head: RbNode)
    ensures p.Step? && p.isLeft ==> After(p) != [] && After(p)[0] == p.node
    ensures p.Step? && !p.isLeft ==> Before(p) != [] && Before(p)[|Before(p)| - 1] == p.node
    ensures p.Top? ==> Before(p) == After(p) == []
    ensures Before(p) == [] ==> First(After(p), head) == Up(p, head)
    ensures After(p) == [] ==> Last(Before(p), head) == Up(p, head)
  {
  }

  lemma {:induction false} LeftmostIsFirst(p: Path, t: Tree)
    requires t.Node?
    ensures Inorder(t) != [] && Leftmost(p, t).1.node == Inorder(t)[0]
    decreases t
  {
    if t.left.Node? { LeftmostIsFirst(GoLeft(p, t), t.left); }
  }

  lemma {:induction false} RightmostIsLast(p: Path, t: Tree)
    requires t.Node?
    ensures Inorder(t) != [] && Rightmost(p, t).1.node == Inorder(t)[|Inorder(t)| - 1]
    decreases t
  {
    if t.right.Node? { RightmostIsLast(GoRight(p, t), t.right); }
  }

  // ---------------------------------------------------------------------------------------
  // Replacing a node by its successor

  /** The zipper and the focus after the successor has replaced the root `t.node` of the focus. */
  ghost function HeirPath(p: Path, t: Tree): Path
    requires t.Node? && t.right.Node?
  {
    Extend(Descent(t.right).0, Step(p, false, Descent(t.right).1.node, t.color, t.left))
  }

  /** The successor of the node and its parent. */
  ghost predicate Heir(t: Tree, y: Tree, pr: Path)
  {
    t.Node? && t.left.Node? && t.right.Node? && Descent(t.right) == (pr, y)
  }

  /** The nodes of the focus without its root, between those before and those after it. */
  ghost function Without(p: Path, t: Tree): seq<RbNode>
    requires t.Node?
  {
    Before(p) + Inorder(t.left) + Inorder(t.right) + After(p)
  }

  lemma {:induction false} LeftmostHasNoneBefore(p: Path, t: Tree)
    requires t.Node?
    ensures Before(Leftmost(p, t).0) == Before(p)
    decreases t
  {
    if t.left.Node? { LeftmostHasNoneBefore(GoLeft(p, t), t.left); }
  }

  lemma HeirRight(t: Tree, pr: Path, y: Tree)
    requires Heir(t, y, pr) && y.Node?
    ensures Inorder(t.right) == [y.node] + Inorder(Plug(pr, y.right))
  {
    LeftmostHasNoneBefore(Top, t.right);
    InorderPlug(pr, y);
    InorderPlug(pr, y.right);
    assert Before(pr) == [] && y.left == Leaf;
    var x, a := Inorder(y.right), After(pr);
    assert Inorder(y) == [y.node] + x;
    assert [y.node] + x + a == [y.node] + (x + a);
  }

  lemma HeirOrder(p: Path, t: Tree, pr: Path, y: Tree)
    requires Heir(t, y, pr) && y.Node?
    ensures Inorder(Plug(HeirPath(p, t), y.right)) == Without(p, t)
  {
    var base, r := Step(p, false, y.node, t.color, t.left), Plug(pr, y.right);
    PlugExtends(pr, base, y.right);
    InorderPlug(p, Join(base, r));
    HeirRight(t, pr, y);
    HeirParts(Before(p), Inorder(t.left), y.node, Inorder(r), After(p));
  }

  lemma HeirParts(b: seq<RbNode>, i: seq<RbNode>, n: RbNode, x: seq<RbNode>, c: seq<RbNode>)
    ensures b + (i + [n] + x) + c == b + i + ([n] + x) + c
  {
  }

  lemma WithoutIsErased(p: Path, t: Tree)
    requires t.Node?
    ensures var xs, i := Inorder(Plug(p, t)), Place(p, t);
      && xs == Before(p) + Inorder(t) + After(p) && i < |xs| && xs[i] == t.node
      && Without(p, t) == xs[..i] + xs[i + 1..]
      && xs[i + 1..] == Inorder(t.right) + After(p)
  {
    InorderPlug(p, t);
    Placed(p, t);
    SplitAt(Before(p), Inorder(t.left), t.node, Inorder(t.right), After(p));
  }

  lemma SplitAt(b: seq<RbNode>, l: seq<RbNode>, n: RbNode, r: seq<RbNode>, a: seq<RbNode>)
    ensures var xs, i := b + (l + [n] + r) + a, |b| + |l|;
      && xs[i] == n && xs[..i] == b + l && xs[i + 1..] == r + a && b + l + (r + a) == b + l + r + a
      && xs[..i] + xs[i + 1..] == b + l + r + a
  {
    var xs, i := b + (l + [n] + r) + a, |b| + |l|;
    assert xs == (b + l) + [n] + (r + a);
    assert xs[..i] == b + l && xs[i + 1..] == r + a;
  }

  lemma SpliceOrder(p: Path, t: Tree, f: Tree)
    requires OnlyChild(t, f)
    ensures Inorder(Plug(p, f)) == Without(p, t) == Before(p) + Inorder(f) + After(p)
  {
    InorderPlug(p, f);
    var b, a := Before(p), After(p);
    assert b + Inorder(f) + a == b + Inorder(t.left) + Inorder(t.right) + a;
  }

  lemma HeirBalance(p: Path, t: Tree, pr: Path, y: Tree)
    requires Balanced(p, t) && Heir(t, y, pr) && y.Node?
    ensures y.color.Red? ==> Mended(HeirPath(p, t), y.right)
    ensures y.color.Black? ==> OneShort(HeirPath(p, t), y.right)
  {
    BalancedDown(p, t);
    var base := GoRight(p, t);
    LeftmostExtends(Top, base, t.right);
    LeftmostBalance(base, t.right);
    var q := Extend(pr, base);
    SpliceBalance(q, y, y.right);
    var h := BlackHeight(y.right) + Blacks(y.color);
    SwapBelow(pr, base, y.node, h);
    assert base.(node := y.node) == Step(p, false, y.node, t.color, t.left);
  }

  /** A node with two children is at neither end. */
  lemma HeirEnds(head: RbNode, p: Path, t: Tree)
    requires t.Node? && t.left.Node? && t.right.Node?
    ensures First(Without(p, t), head) == First(Before(p) + Inorder(t) + After(p), head)
    ensures Last(Without(p, t), head) == Last(Before(p) + Inorder(t) + After(p), head)
  {
    var b, l, r, a := Before(p), Inorder(t.left), Inorder(t.right), After(p);
    assert l != [] && r != [];
    var xs, ys := b + (l + [t.node] + r) + a, b + l + r + a;
    assert xs[0] == (b + l)[0] && ys[0] == (b + l)[0];
    assert xs[|xs| - 1] == (r + a)[|r + a| - 1] && ys[|ys| - 1] == (r + a)[|r + a| - 1];
  }

  // ---------------------------------------------------------------------------------------
  // The cost of a traversal, in links followed

  /** Links followed upwards from a node without right child. */
  ghost function Climb(p: Path): nat
  {
    if p.Top? || p.isLeft then 1 else 1 + Climb(p.up)
  }

  ghost function LeftSpine(t: Tree): nat
  {
    if t.Leaf? then 0 else 1 + LeftSpine(t.left)
  }

  ghost function NextSteps(p: Path, t: Tree): nat
    requires t.Node?
  {
    if t.right.Leaf? then Climb(p) else LeftSpine(t.right)
  }

  /** What every step to the successor costs, in order of the nodes. */
  ghost function Costs(p: Path, t: Tree): seq<nat>
    decreases t
  {
    if t.Leaf? then []
    else Costs(GoLeft(p, t), t.left) + [NextSteps(p, t)] + Costs(GoRight(p, t), t.right)
  }

  ghost function Sum(xs: seq<nat>): nat
  {
    if xs == [] then 0 else Sum(xs[..|xs| - 1]) + xs[|xs| - 1]
  }

  lemma {:induction false} SumConcat(xs: seq<nat>, ys: seq<nat>)
    ensures Sum(xs + ys) == Sum(xs) + Sum(ys)
  {
    if ys == [] {
      assert xs + ys == xs;
    } else {
      assert (xs + ys)[..|xs + ys| - 1] == xs + ys[..|ys| - 1];
      SumConcat(xs, ys[..|ys| - 1]);
    }
  }

  /** Every link inside a subtree is followed once in each direction. */
  lemma {:induction false} TourCost(p: Path, t: Tree)
    requires t.Node?
    ensures |Costs(p, t)| == |Inorder(t)|
    ensures Sum(Costs(p, t)) + LeftSpine(t) + 1 == 2 * |Inorder(t)| + Climb(p)
    decreases t
  {
    var l, c, r := Costs(GoLeft(p, t), t.left), NextSteps(p, t), Costs(GoRight(p, t), t.right);
    SumConcat(l, [c]);
    SumConcat(l + [c], r);
    assert Sum([c]) == c;
    if t.left.Node? { TourCost(GoLeft(p, t), t.left); }
    if t.right.Node? { TourCost(GoRight(p, t), t.right); }
  }

  lemma WholeTour(t: Tree)
    ensures |Costs(Top, t)| == |Inorder(t)| && Sum(Costs(Top, t)) <= 2 * |Inorder(t)|
  {
    if t.Node? { TourCost(Top, t); }
  }

  /** The cost noted at a node's place is the cost of the step from there. */
  lemma {:induction false} CostAt(p: Path, t: Tree, i: nat)
    requires t.Node? && Place(p, t) == i
    ensures i < |Costs(Top, Plug(p, t))| && Costs(Top, Plug(p, t))[i] == NextSteps(p, t)
  {
    CostsPlug(p, t);
    if t.left.Node? { TourCost(GoLeft(p, t), t.left); }
    var b, a :| |b| == |Before(p)| && Costs(Top, Plug(p, t)) == b + Costs(p, t) + a;
    assert Costs(p, t)[|Inorder(t.left)|] == NextSteps(p, t);
  }

  lemma {:induction false} CostsPlug(p: Path, t: Tree)
    ensures exists b, a :: |b| == |Before(p)| && Costs(Top, Plug(p, t)) == b + Costs(p, t) + a
  {
    hide Costs; hide Before; hide NextSteps;
    BeforeSize(p);
    if p.Top? {
      var none: seq<nat> := [];
      assert Costs(Top, t) == none + Costs(p, t) + none;
    } else {
      var j := Join(p, t);
      CostsPlug(p.up, j);
      CostsJoin(p, t);
      var b, a :| |b| == |Before(p.up)| && Costs(Top, Plug(p, t)) == b + Costs(p.up, j) + a;
      var x := [NextSteps(p.up, j)];
      if p.isLeft {
        var r := Costs(GoRight(p.up, j), p.sibling);
        RegroupLeft(b, Costs(p, t), x, r, a);
        assert Costs(Top, Plug(p, t)) == b + Costs(p, t) + (x + r + a);
      } else {
        var l := Costs(GoLeft(p.up, j), p.sibling);
        RegroupRight(b, l, x, Costs(p, t), a);
        assert Costs(Top, Plug(p, t)) == (b + (l + x)) + Costs(p, t) + a;
      }
    }
  }

  lemma BeforeSize(p: Path)
    ensures p.Top? ==> Before(p) == []
    ensures p.Step? ==> |Before(p)| == |Before(p.up)| + if p.isLeft then 0 else |Inorder(p.sibling)| + 1
  {
  }

  /** The costs of a tree in which the focus is one of the children. */
  lemma CostsJoin(p: Path, t: Tree)
    requires p.Step?
    ensures var j := Join(p, t);
      if p.isLeft then
        Costs(p.up, j) == Costs(p, t) + [NextSteps(p.up, j)] + Costs(GoRight(p.up, j), p.sibling)
      else
        && Costs(p.up, j) == Costs(GoLeft(p.up, j), p.sibling) + [NextSteps(p.up, j)] + Costs(p, t)
        && |Costs(GoLeft(p.up, j), p.sibling)| == |Inorder(p.sibling)|
  {
    var j := Join(p, t);
    if !p.isLeft && p.sibling.Node? { TourCost(GoLeft(p.up, j), p.sibling); }
  }

  lemma RegroupLeft(b: seq<nat>, l: seq<nat>, x: seq<nat>, r: seq<nat>, a: seq<nat>)
    ensures b + (l + x + r) + a == b + l + (x + r + a)
  {
  }

  lemma RegroupRight(b: seq<nat>, l: seq<nat>, x: seq<nat>, r: seq<nat>, a: seq<nat>)
    ensures b + (l + x + r) + a == (b + (l + x)) + r + a
  {
  }

  // ---------------------------------------------------------------------------------------
  // Height

  ghost function Height(t: Tree): nat
  {
    if t.Leaf? then 0
    else 1 + if Height(t.left) < Height(t.right) then Height(t.right) else Height(t.left)
  }

  lemma {:induction false} HeightBound(t: Tree)
    requires RedBlack(t)
    ensures Height(t) <= 2 * BlackHeight(t) + (if IsRed(t) then 1 else 0)
    ensures Pow2(BlackHeight(t)) <= |Inorder(t)| + 1
  {
    if t.Node? {
      HeightBound(t.left);
      HeightBound(t.right);
    }
  }

  /** A balanced tree of n nodes is at most 2 log2(n + 1) high: with h = Height(t),
      h / 2 rounded up is an exponent whose power of two does not exceed n + 1. */
  lemma LogarithmicHeight(t: Tree)
    requires RedBlack(t) && !IsRed(t)
    ensures Pow2((Height(t) + 1) / 2) <= |Inorder(t)| + 1
  {
    HeightBound(t);
    Pow2Monotone((Height(t) + 1) / 2, BlackHeight(t));
  }

  /** No way down is longer than the tree is high. */
  lemma {:induction false} PathWithinHeight(p: Path, t: Tree)
    ensures Length(p) + Height(t) <= Height(Plug(p, t))
  {
    if p.Step? { PathWithinHeight(p.up, Join(p, t)); }
  }
}
