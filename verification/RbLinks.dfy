/** From the links between the nodes to the tree they form, and back. */
module RbLinks {
  import opened RbShape
  import opened RbBalance
  import opened RbOrder

  /** What the links of the focus and of the node above it say. */
  lemma Kin(ns: set<RbNode>, head: RbNode, p: Path, t: Tree)
    requires RepAt(Snap(ns), head, p, t)
    ensures head in ns && head.color == Black
    ensures t.Node? ==> t.node in ns && t.node.parent == Up(p, head) && t.node.color == t.color && t.node != head
    ensures p.Step? ==>
      && p.node in ns && p.node != head && p.node != Root(t, head) && p.node.parent == Up(p.up, head) &&
        p.node.color == p.color
      && p.node.left == Root(if p.isLeft then t else p.sibling, head)
      && p.node.right == Root(if p.isLeft then p.sibling else t, head)
      && (Root(p.sibling, head).color == Red <==> IsRed(p.sibling))
      && (p.sibling.Node? ==> p.sibling.node in ns && p.sibling.node != Root(t, head) && p.sibling.node != head)
  {
    if t.Node? { assert t.node in Nodes(t); }
    if p.Step? {
      assert p.node in PathNodes(p);
      var s := p.sibling;
      assert Rep(Snap(ns), head, s, p.node);
      if s.Node? {
        assert s.node in Nodes(s);
        assert Snap(ns)[s.node].color == s.color;
        assert s.node in PathNodes(p);
      }
    }
  }

  /** A node with two nil children has been hung into the empty slot. */
  lemma Linked(m: Mem, m': Mem, head: RbNode, p: Path, node: RbNode)
    requires RepAt(m, head, p, Leaf) && node !in m && m'.Keys == m.Keys + {node}
    requires m'[node] == Cell(Up(p, head), head, head, Red)
    requires p.Top? ==> m'[head].parent == node
    requires p.Step? ==> m'[head].parent == m[head].parent && p.node in m && m'[p.node] == SlotCell(m[p.node], p, node)
    requires m'[head].color == Black && SameOn(m, m', m.Keys - {Up(p, head), head})
    ensures RepAt(m', head, p, Node(Leaf, node, Red, Leaf))
  {
    PathBound(m, head, p, head);
    SlotStored(m, m', head, p, head, node);
  }

  lemma HeadApart(ns: set<RbNode>, head: RbNode, p: Path, t: Tree)
    requires RepAt(Snap(ns), head, p, t)
    ensures head !in PathNodes(p)
  {
  }

  /** How the cached ends change when a node is put into the free place. */
  lemma LinkEnds(head: RbNode, p: Path)
    requires NoDup(Before(p) + After(p)) && head !in PathNodes(p)
    ensures var xs := Before(p) + After(p);
      && (p.Top? ==> Before(p) == After(p) == [])
      && (p.Step? && p.isLeft ==> After(p) != [] && Last(xs, head) == Last(After(p), head))
      && (p.Step? && p.isLeft ==> (First(xs, head) == p.node <==> Before(p) == []))
      && (p.Step? && !p.isLeft ==> Before(p) != [] && First(xs, head) == First(Before(p), head))
      && (p.Step? && !p.isLeft ==> (Last(xs, head) == p.node <==> After(p) == []))
  {
    var xs := Before(p) + After(p);
    if p.Step? && p.isLeft {
      assert xs[|Before(p)|] == p.node;
    }
    if p.Step? && !p.isLeft {
      assert xs[|Before(p)| - 1] == p.node;
    }
  }

  /** A store to the sentinel's cached ends leaves the tree alone. */
  lemma EndsStored(m: Mem, m': Mem, head: RbNode, p: Path, t: Tree)
    requires RepAt(m, head, p, t) && head in m && head in m' && SameOn(m, m', m.Keys - {head})
    requires m'[head].parent == m[head].parent && m'[head].color == m[head].color
    ensures RepAt(m', head, p, t)
  {
    RepFrame(m, m', head, t, Up(p, head));
    PathFrame(m, m', head, p, Root(t, head));
  }

  /** The child `f` has taken the place of the focus, which has no other child. */
  lemma Spliced(m: Mem, m': Mem, head: RbNode, p: Path, t: Tree, f: Tree)
    requires RepAt(m, head, p, t) && OnlyChild(t, f) && head in m'
    requires p.Top? ==> m'[head].parent == Root(f, head)
    requires p.Step? ==>
      && m'[head].parent == m[head].parent
      && p.node in m && p.node in m' && m'[p.node] == SlotCell(m[p.node], p, Root(f, head))
    requires f.Node? ==> f.node in m && f.node in m' && m'[f.node] == m[f.node].(parent := Up(p, head))
    requires m'[head].color == Black
    requires SameOn(m, m', m.Keys - {Up(p, head), Root(f, head), head, t.node})
    ensures RepAt(m', head, p, f)
  {
    assert Nodes(t) == {t.node} + Nodes(f);
    assert t.node in Nodes(t);
    assert p.Step? ==> p.node in PathNodes(p);
    assert f.Node? ==> f.node in Nodes(f);
    assert Rep(m, head, f, t.node);
    assert Distinct(f);
    RepMove(m, m', head, f, t.node, Up(p, head));
    SlotStored(m, m', head, p, t.node, Root(f, head));
  }

  /** The node `n` has taken the place of the root of the focus. */
  lemma Replaced(m: Mem, m': Mem, head: RbNode, p: Path, t: Tree, n: RbNode)
    requires RepAt(m, head, p, t) && t.Node? && n !in Nodes(t) && n !in PathNodes(p) && n != head
    requires n in m' && m'[n] == Cell(Up(p, head), Root(t.left, head), Root(t.right, head), t.color)
    requires t.left.Node? ==> t.left.node in m && t.left.node in m' && m'[t.left.node] == m[t.left.node].(parent := n)
    requires t.right.Node? ==>
      t.right.node in m && t.right.node in m' && m'[t.right.node] == m[t.right.node].(parent := n)
    requires head in m' && m'[head].color == Black
    requires p.Top? ==> m'[head].parent == n
    requires p.Step? ==>
      && m'[head].parent == m[head].parent
      && p.node in m && p.node in m' && m'[p.node] == SlotCell(m[p.node], p, n)
    requires SameOn(m, m', m.Keys - {t.node, n, Root(t.left, head), Root(t.right, head), Up(p, head), head})
    ensures RepAt(m', head, p, t.(node := n))
  {
    assert Nodes(t) == Nodes(t.left) + {t.node} + Nodes(t.right);
    assert p.Step? ==> p.node in PathNodes(p);
    assert t.left.Node? ==> t.left.node in Nodes(t.left);
    assert t.right.Node? ==> t.right.node in Nodes(t.right);
    assert Rep(m, head, t.left, t.node) && Rep(m, head, t.right, t.node);
    RepMove(m, m', head, t.left, t.node, n);
    RepMove(m, m', head, t.right, t.node, n);
    SlotStored(m, m', head, p, t.node, n);
    assert Nodes(t.(node := n)) == Nodes(t.left) + {n} + Nodes(t.right);
  }

  /** First step of a replacement, on the map only: the successor `y` is taken out of its place. */
  ghost function WithoutHeir(m: Mem, head: RbNode, p: Path, t: Tree, pr: Path, y: Tree): Mem
    requires t.Node? && y.Node? && (pr.Step? ==> pr.node in m) && t.node in m && (y.right.Node? ==> y.right.node in m)
  {
    var q := Extend(pr, GoRight(p, t));
    var fp := if pr.Step? then pr.node else t.node;
    var m0 := m[fp := SlotCell(m[fp], q, Root(y.right, head))];
    if y.right.Node? then m0[y.right.node := m[y.right.node].(parent := fp)] else m0
  }

  lemma HeirTakenOut(m: Mem, head: RbNode, p: Path, t: Tree, pr: Path, y: Tree)
    requires RepAt(m, head, p, t) && Heir(t, y, pr)
    ensures y.Node? && y.left.Leaf? && (pr.Step? ==> pr.node in m && pr.node != t.node)
    ensures t.node in m && (y.right.Node? ==> y.right.node in m)
    ensures Plug(pr, y) == t.right
    ensures RepAt(WithoutHeir(m, head, p, t, pr, y), head, p, t.(right := Plug(pr, y.right)))
  {
    var base := GoRight(p, t);
    var q := Extend(pr, base);
    ZipUp(m, head, base, t.right);
    ZipExtends(m, head, pr, base, y);
    assert RepAt(m, head, q, y);
    assert y.node in Nodes(y);
    assert q.Step? && q.node == (if pr.Step? then pr.node else t.node);
    assert q.node in PathNodes(q);
    assert Rep(m, head, y.right, y.node);
    assert y.right.Node? ==> y.right.node in Nodes(y.right);
    PathBound(m, head, q, y.node);
    if pr.Step? {
      assert t.node in PathNodes(q.up) by { ExtendNodes(pr.up, base); }
    }
    var m1 := WithoutHeir(m, head, p, t, pr, y);
    Spliced(m, m1, head, q, y, y.right);
    ZipExtends(m1, head, pr, base, y.right);
    ZipUp(m1, head, base, Plug(pr, y.right));
  }

  /** The links around the node and its successor. */
  lemma HeirLinks(ns: set<RbNode>, head: RbNode, p: Path, t: Tree, pr: Path, y: Tree)
    requires RepAt(Snap(ns), head, p, t) && Heir(t, y, pr)
    ensures var e, l, r, n, f := t.node, t.left.node, t.right.node, y.node, y.right;
      && {e, l, r, n, head, Up(p, head)} <= ns
      && e.left == l && e.right == r && e.parent == Up(p, head) && e.color == t.color
      && n.left == head && n.right == Root(f, head) && n.color == y.color
      && n.parent == (if pr.Step? then pr.node else e)
      && (pr.Top? <==> n == r)
      && e != l && e != r && e != n && l != r && l != n && head != e && head != l && head != r && head != n
    ensures pr.Step? ==> pr.isLeft && pr.node in ns && pr.node.left == y.node
    ensures pr.Step? ==>
      pr.node != head && pr.node != t.node && pr.node != t.left.node && pr.node != y.node &&
      pr.node != Up(p, head)
    ensures Up(p, head) != t.node && Up(p, head) != t.left.node && Up(p, head) != t.right.node && Up(p, head) != y.node
    ensures p.Top? <==> Up(p, head) == head
    ensures p.Top? <==> head.parent == t.node
    ensures p.Step? ==> (p.isLeft <==> p.node.left == t.node)
    ensures var f := y.right; f.Node? ==>
      && f.node in ns && f.node.parent == y.node && f.node != t.node && f.node != t.left.node &&
        f.node != t.right.node && f.node != y.node
      && f.node != head && f.node != Up(p, head) && (pr.Step? ==> f.node != pr.node)
    ensures Kept(Snap(ns), ns)
    ensures Plug(pr, y.right).Node? ==> Plug(pr, y.right).node == (if pr.Top? then y.right.node else t.right.node)
    ensures Plug(pr, y.right).Leaf? ==> pr.Top? && y.right.Leaf?
  {
    hide Nodes; hide PathNodes;
    var m := Snap(ns);
    var base := GoRight(p, t);
    var q := Extend(pr, base);
    HeirTakenOut(m, head, p, t, pr, y);
    LeftmostTurnsLeft(Top, t.right);
    Links(ns, head, p, t, t.left);
    Links(ns, head, p, t, t.right);
    ZipUp(m, head, base, t.right);
    ZipExtends(m, head, pr, base, y);
    Upwards(ns, head, q, y);
    Down(ns, head, q, y);
    Kin(ns, head, q, y);
    assert Rep(m, head, y.right, y.node);
    if pr.Step? {
      PlugRoot(pr, y, y.right);
    }
    HeirApart(m, head, p, t, pr, y);
  }

  lemma HeirApart(m: Mem, head: RbNode, p: Path, t: Tree, pr: Path, y: Tree)
    requires RepAt(m, head, p, t) && Heir(t, y, pr)
    ensures y.node !in Nodes(y.right) && y.node !in PathNodes(pr) && y.node != t.node && y.node !in Nodes(t.left)
    ensures y.node !in PathNodes(p) && y.node != head
    ensures Nodes(t.right) == PathNodes(pr) + Nodes(y) && Nodes(y) == {y.node} + Nodes(y.right)
    ensures Nodes(y.right) !! PathNodes(pr) + {t.node} + Nodes(t.left) + PathNodes(p) + {head}
    ensures PathNodes(pr) !! {t.node} + Nodes(t.left) + PathNodes(p) + {head}
    ensures t.node !in Nodes(t.left)
    ensures pr.Step? ==> pr.node in PathNodes(pr) && t.right.node in PathNodes(pr)
    ensures y.right.Node? ==> y.right.node in Nodes(y.right)
    ensures t.left.node in Nodes(t.left) && (p.Step? ==> p.node in PathNodes(p))
  {
    var rest := {t.node} + Nodes(t.left) + PathNodes(p) + {head};
    assert Nodes(t.right) !! rest by {
      assert Nodes(t) == Nodes(t.left) + {t.node} + Nodes(t.right);
    }
    HeirWithin(m, head, p, t, pr, y);
    assert Nodes(y) <= Nodes(t.right) && PathNodes(pr) <= Nodes(t.right);
    if pr.Step? {
      RootAmong(pr, y);
    }
  }

  lemma HeirWithin(m: Mem, head: RbNode, p: Path, t: Tree, pr: Path, y: Tree)
    requires RepAt(m, head, p, t) && Heir(t, y, pr)
    ensures y.Node? && Nodes(y) == {y.node} + Nodes(y.right) && y.node !in Nodes(y.right)
    ensures Nodes(t.right) == PathNodes(pr) + Nodes(y) && Nodes(y) !! PathNodes(pr)
    ensures Plug(pr, y) == t.right
  {
    var base := GoRight(p, t);
    ZipUp(m, head, base, t.right);
    ZipExtends(m, head, pr, base, y);
    ExtendNodes(pr, base);
    PlugNodes(pr, y);
    assert y.left.Leaf?;
  }

  lemma {:induction false} RootAmong(p: Path, t: Tree)
    requires p.Step?
    ensures Plug(p, t).Node? && Plug(p, t).node in PathNodes(p)
  {
    if p.up.Step? { RootAmong(p.up, Join(p, t)); }
  }

  /** The links changed by putting the successor in the node's place amount to the tree with the
      successor there. */
  lemma Transplanted(m: Mem, m': Mem, head: RbNode, p: Path, t: Tree, pr: Path, y: Tree)
    requires RepAt(m, head, p, t) && Heir(t, y, pr) && y.Node?
    requires (pr.Step? ==> pr.node in m) && t.node in m && (y.right.Node? ==> y.right.node in m)
    requires {head, y.node, t.left.node, Up(p, head)} <= m.Keys == m'.Keys
    requires Plug(pr, y.right).Node? ==> Plug(pr, y.right).node in m
    requires var m1, n, r := WithoutHeir(m, head, p, t, pr, y), y.node, Plug(pr, y.right);
      && m'[n] == Cell(Up(p, head), t.left.node, Root(r, head), t.color)
      && m'[t.left.node] == m1[t.left.node].(parent := n)
      && (r.Node? ==> m'[r.node] == m1[r.node].(parent := n))
      && m'[Up(p, head)] == SlotCell(m1[Up(p, head)], p, n)
      && (p.Step? ==> m'[head] == m1[head])
      && SameOn(m1, m', m1.Keys - {t.node, n, t.left.node, Root(r, head), Up(p, head), head})
    ensures RepAt(m', head, HeirPath(p, t), y.right)
  {
    HeirTakenOut(m, head, p, t, pr, y);
    HeirApart(m, head, p, t, pr, y);
    PlugNodes(pr, y.right);
    var m1, n, r := WithoutHeir(m, head, p, t, pr, y), y.node, Plug(pr, y.right);
    var t1 := t.(right := r);
    assert Nodes(t1) == Nodes(t.left) + {t.node} + Nodes(r);
    Replaced(m1, m', head, p, t1, n);
    var base := Step(p, false, n, t.color, t.left);
    assert Join(base, r) == t1.(node := n);
    ZipUp(m', head, base, r);
    ZipExtends(m', head, pr, base, y.right);
  }

  lemma {:induction false} ExtendNodes(pr: Path, base: Path)
    ensures PathNodes(Extend(pr, base)) == PathNodes(pr) + PathNodes(base)
  {
    if pr.Step? { ExtendNodes(pr.up, base); }
  }

  lemma ChildLinks(ns: set<RbNode>, head: RbNode, p: Path, t: Tree, f: Tree)
    requires RepAt(Snap(ns), head, p, t) && OnlyChild(t, f)
    ensures f.Node? ==> f.node in ns && f.node != head && f.node != t.node && f.node != Up(p, head)
    ensures p.Top? <==> head.parent == t.node
    ensures Kept(Snap(ns), ns) && t.node != Up(p, head)
    ensures {head, t.node, Up(p, head)} <= ns
  {
    Kin(ns, head, p, t);
    assert Nodes(t) == {t.node} + Nodes(f);
    assert f.Node? ==> f.node in Nodes(f);
    assert Rep(Snap(ns), head, f, t.node);
    assert p.Step? ==> p.node in PathNodes(p);
    RootOnPath(Snap(ns), head, p, t.node);
  }

  lemma SplicedNow(m: Mem, ns: set<RbNode>, head: RbNode, p: Path, t: Tree, f: Tree)
    requires RepAt(m, head, p, t) && OnlyChild(t, f) && m.Keys == ns && {head, Up(p, head)} <= ns
    requires Is(Up(p, head), SlotCell(m[Up(p, head)], p, Root(f, head)))
    requires p.Step? ==> Is(head, m[head])
    requires f.Node? ==> f.node in m && Is(f.node, m[f.node].(parent := Up(p, head)))
    requires Kept(m, ns - {Up(p, head), Root(f, head), head, t.node})
    ensures RepAt(Snap(ns), head, p, f)
  {
    assert SameOn(m, Snap(ns), m.Keys - {Up(p, head), Root(f, head), head, t.node});
    Spliced(m, Snap(ns), head, p, t, f);
  }

  lemma EndsNow(m: Mem, ns: set<RbNode>, head: RbNode, p: Path, t: Tree)
    requires RepAt(m, head, p, t) && m.Keys == ns && head in ns && Kept(m, ns - {head})
    requires head.parent == m[head].parent && head.color == m[head].color
    ensures RepAt(Snap(ns), head, p, t)
  {
    EndsStored(m, Snap(ns), head, p, t);
  }

  lemma TransplantedNow(m: Mem, ns: set<RbNode>, head: RbNode, p: Path, t: Tree, pr: Path, y: Tree)
    requires RepAt(m, head, p, t) && Heir(t, y, pr) && y.Node?
    requires (pr.Step? ==> pr.isLeft && pr.node in m) && t.node in m && (y.right.Node? ==> y.right.node in m)
    requires {head, y.node, t.left.node, t.right.node, Up(p, head)} <= m.Keys == ns
    requires Is(y.node, Cell(Up(p, head), t.left.node, if pr.Top? then Root(y.right, head) else t.right.node, t.color))
    requires Is(t.left.node, m[t.left.node].(parent := y.node))
    requires y.right.Node? ==> Is(y.right.node, m[y.right.node].(parent := if pr.Top? then y.node else pr.node))
    requires pr.Step? ==> Is(pr.node, m[pr.node].(left := Root(y.right, head),
                                                  parent := if pr.node == t.right.node then y.node
                                                    else m[pr.node].parent))
    requires pr.Step? && pr.node != t.right.node ==> Is(t.right.node, m[t.right.node].(parent := y.node))
    requires Is(Up(p, head), SlotCell(m[Up(p, head)], p, y.node))
    requires p.Step? ==> Is(head, m[head])
    requires Kept(m, ns - {t.node, y.node, t.left.node, t.right.node, Root(y.right, head), Up(p, head),
      if pr.Step? then pr.node else t.node})
    ensures RepAt(Snap(ns), head, HeirPath(p, t), y.right)
  {
    HeirCells(m, head, p, t, pr, y);
    hide RepAt; hide Heir; hide HeirPath; hide Plug;
    var m1, r := WithoutHeir(m, head, p, t, pr, y), Plug(pr, y.right);
    var m' := Snap(ns);
    assert m1.Keys == ns;
    assert SameOn(m1, m', m1.Keys - {t.node, y.node, t.left.node, Root(r, head), Up(p, head), head});
    Transplanted(m, m', head, p, t, pr, y);
  }

  /** The pointers of a replacement are apart. */
  lemma HeirCells(m: Mem, head: RbNode, p: Path, t: Tree, pr: Path, y: Tree)
    requires RepAt(m, head, p, t) && Heir(t, y, pr)
    ensures t.left.node != t.node && t.left.node != y.node && (y.right.Node? ==> t.left.node != y.right.node)
    ensures pr.Step? ==> pr.node != t.left.node && pr.node != y.node && pr.node != t.node && pr.node != Up(p, head)
    ensures y.right.Node? ==>
      y.right.node != y.node && y.right.node != t.node && y.right.node != Up(p, head) &&
      y.right.node != head
    ensures y.right.Node? && pr.Step? ==> y.right.node != pr.node && y.right.node != t.right.node
    ensures y.node != t.node && y.node != Up(p, head) && t.left.node != Up(p, head) &&
      t.right.node != Up(p, head) && t.node != Up(p, head)
    ensures pr.Step? ==>
      t.right.node != y.node && t.right.node != t.left.node && t.right.node != t.node &&
      pr.node != head
    ensures Plug(pr, y.right).Node? ==> Plug(pr, y.right).node == (if pr.Top? then y.right.node else t.right.node)
    ensures Plug(pr, y.right).Leaf? ==> pr.Top? && y.right.Leaf?
    ensures y.right.Node? ==> y.right.node in m && m[y.right.node].parent == y.node
    ensures head in m && y.node in m && (p.Top? <==> Up(p, head) == head) && t.left.node != head &&
      t.node != head && y.node != head
  {
    HeirTakenOut(m, head, p, t, pr, y);
    HeirApart(m, head, p, t, pr, y);
    PlugNodes(pr, y);
    if pr.Step? { PlugRoot(pr, y, y.right); }
    var base := GoRight(p, t);
    ZipUp(m, head, base, t.right);
    ZipExtends(m, head, pr, base, y);
    assert Rep(m, head, y.right, y.node);
  }

  lemma HeirPathEnd(p: Path, t: Tree, pr: Path, y: Tree)
    requires Heir(t, y, pr) && y.Node?
    ensures HeirPath(p, t).Step? && HeirPath(p, t).node == (if pr.Step? then pr.node else y.node)
  {
  }

  /** The links and colours of the sibling's children. */
  lemma Nephews(ns: set<RbNode>, head: RbNode, p: Path, t: Tree)
    requires RepAt(Snap(ns), head, p, t) && p.Step? && p.sibling.Node?
    ensures p.sibling.node in ns && p.sibling.node != head && p.sibling.node.color == p.sibling.color
    ensures p.sibling.node.left == Root(p.sibling.left, head) && p.sibling.node.right == Root(p.sibling.right, head)
    ensures Root(p.sibling.left, head).color.Red? <==> IsRed(p.sibling.left)
    ensures Root(p.sibling.right, head).color.Red? <==> IsRed(p.sibling.right)
  {
    var q := Turned(p, t);
    Turn(Snap(ns), head, p, t);
    Down(ns, head, q, p.sibling);
    Kin(ns, head, q, p.sibling);
    Kin(ns, head, GoLeft(q, p.sibling), p.sibling.left);
    Kin(ns, head, GoRight(q, p.sibling), p.sibling.right);
  }

  /** What the guard of the erase loop tells about the focus. */
  lemma FixGuard(ns: set<RbNode>, head: RbNode, p: Path, t: Tree)
    requires RepAt(Snap(ns), head, p, t)
    ensures head in ns && Root(t, head) in ns
    ensures Root(t, head) == head.parent <==> p.Top?
    ensures Root(t, head).color == Red <==> IsRed(t)
    ensures Root(t, head) == head <==> t.Leaf?
  {
    NilRoot(Snap(ns), head, p, t);
    Kin(ns, head, p, t);
    RootOnPath(Snap(ns), head, p, Root(t, head));
    assert t.Node? ==> t.node in Nodes(t);
  }

  lemma NilRoot(m: Mem, head: RbNode, p: Path, t: Tree)
    requires RepAt(m, head, p, t)
    ensures Root(t, head) == head <==> t.Leaf?
  {
    assert t.Node? ==> t.node in Nodes(t);
  }

  /** The links of the focus downwards. */
  lemma Down(ns: set<RbNode>, head: RbNode, p: Path, t: Tree)
    requires RepAt(Snap(ns), head, p, t) && t.Node?
    ensures t.node in ns && t.node != head && t.node.parent == Up(p, head)
    ensures t.node.left == Root(t.left, head) && t.node.right == Root(t.right, head)
    ensures (t.node.left == head <==> t.left.Leaf?) && (t.node.right == head <==> t.right.Leaf?)
    ensures RepAt(Snap(ns), head, GoLeft(p, t), t.left) && RepAt(Snap(ns), head, GoRight(p, t), t.right)
    ensures Plug(GoLeft(p, t), t.left) == Plug(p, t) == Plug(GoRight(p, t), t.right)
  {
    assert t.node in Nodes(t);
    assert t.left.Node? ==> t.left.node in Nodes(t.left);
    assert t.right.Node? ==> t.right.node in Nodes(t.right);
    ZipUp(Snap(ns), head, GoLeft(p, t), t.left);
    ZipUp(Snap(ns), head, GoRight(p, t), t.right);
  }

  /** The links of the node above the focus. */
  lemma Upwards(ns: set<RbNode>, head: RbNode, p: Path, t: Tree)
    requires RepAt(Snap(ns), head, p, t) && t.Node?
    ensures t.node in ns && t.node != head && t.node.parent == Up(p, head) && (Up(p, head) == head <==> p.Top?)
    ensures p.Step? ==>
      && p.node in ns && (p.isLeft <==> p.node.left == t.node) && (!p.isLeft <==> p.node.right == t.node)
      && RepAt(Snap(ns), head, p.up, Join(p, t))
  {
    Kin(ns, head, p, t);
    if p.Step? {
      ZipUp(Snap(ns), head, p, t);
    }
  }

  lemma RootLink(ns: set<RbNode>, head: RbNode, t: Tree)
    requires RepAt(Snap(ns), head, Top, t)
    ensures head in ns && head.parent == Root(t, head) && head.color == Black
  {
  }

  lemma RedParent(p: Path, t: Tree)
    requires OneRedRed(p, t) && p.Step? && p.color.Red?
    ensures p.up.Step?
  {
  }

  lemma InsertDone(p: Path, t: Tree)
    requires OneRedRed(p, t) && (p.Step? ==> p.color.Black?)
    ensures Plug(p, t).Node?
    ensures var r := Plug(p, t).(color := Black); RedBlack(r) && Inorder(r) == Inorder(Plug(p, t))
  {
    if p.Step? {
      PlugRedBlack(p, t);
      InorderPlug(p, t);
    }
  }

  ghost function Now(n: RbNode): Cell
    reads n
  {
    Cell(n.parent, n.left, n.right, n.color)
  }

  /** Node `n` now has the fields `c`. */
  ghost predicate Is(n: RbNode, c: Cell)
    reads n
  {
    n.parent == c.parent && n.left == c.left && n.right == c.right && n.color == c.color
  }

  ghost predicate Kept(m: Mem, ns: set<RbNode>)
    reads ns
  {
    forall n :: n in ns && n in m ==> Is(n, m[n])
  }

  /** The focus unfolded two levels deep on one side. */
  lemma TwoLevels(m: Mem, head: RbNode, p: Path, t: Tree, s: Tree)
    requires RepAt(m, head, p, t) && t.Node? && (s == t.left || s == t.right) && s.Node?
    ensures head in m && t.node in m && m[t.node] == Cell(Up(p, head), Root(t.left, head), Root(t.right, head), t.color)
    ensures s.node in m && m[s.node] == Cell(t.node, Root(s.left, head), Root(s.right, head), s.color)
    ensures t.node != head && s.node != head && t.node != s.node
    ensures t.node !in PathNodes(p) && s.node !in PathNodes(p)
    ensures p.Top? <==> m[head].parent == t.node
    ensures p.Step? ==> p.node in m && t.node != p.node && s.node != p.node && p.node != head
    ensures p.Step? ==> (p.isLeft <==> m[p.node].left == t.node)
    ensures Below(m, head, p, t, s, s.left)
    ensures Below(m, head, p, t, s, s.right)
    ensures Nodes(s.left) !! Nodes(s.right)
    ensures s.left.Node? ==>
      s.left.node in m && s.left.node != head && s.left.node != s.node &&
      s.left.node != t.node && s.left.node != Up(p, head)
    ensures s.right.Node? ==>
      s.right.node in m && s.right.node != head && s.right.node != s.node &&
      s.right.node != t.node && s.right.node != Up(p, head)
  {
    assert Rep(m, head, s, t.node);
    assert Distinct(s);
    assert Nodes(s) == Nodes(s.left) + {s.node} + Nodes(s.right);
    assert Nodes(t) == Nodes(t.left) + {t.node} + Nodes(t.right);
    assert Nodes(s) <= Nodes(t);
    var o := if s == t.left then t.right else t.left;
    assert Nodes(o) !! Nodes(s);
    assert Rep(m, head, s.left, s.node);
    assert Rep(m, head, s.right, s.node);
    assert p.Step? ==> p.node in PathNodes(p);
    RootOnPath(m, head, p, t.node);
    if p.Step? && p.sibling.Node? {
      assert p.sibling.node in PathNodes(p);
    }
  }

  ghost predicate Fresh(n: RbNode, ns: set<RbNode>, head: RbNode, p: Path, t: Tree, s: Tree)
    requires t.Node? && s.Node?
  {
    n in ns && n != head && n != t.node && n != s.node && n != Up(p, head)
  }

  /** The same two levels as links between the nodes. */
  lemma Links(ns: set<RbNode>, head: RbNode, p: Path, t: Tree, s: Tree)
    requires RepAt(Snap(ns), head, p, t) && t.Node? && (s == t.left || s == t.right) && s.Node?
    ensures {head, t.node, s.node, Up(p, head)} <= ns
    ensures Is(t.node, Cell(Up(p, head), Root(t.left, head), Root(t.right, head), t.color))
    ensures Is(s.node, Cell(t.node, Root(s.left, head), Root(s.right, head), s.color))
    ensures t.node != head && s.node != head && t.node != s.node && t.node != Up(p, head) && s.node != Up(p, head)
    ensures s.left.Node? ==> Fresh(s.left.node, ns, head, p, t, s)
    ensures s.right.Node? ==> Fresh(s.right.node, ns, head, p, t, s)
    ensures p.Top? <==> head.parent == t.node
    ensures p.Top? <==> Up(p, head) == head
    ensures p.Step? ==> (p.isLeft <==> Up(p, head).left == t.node)
    ensures Kept(Snap(ns), ns)
  {
    TwoLevels(Snap(ns), head, p, t, s);
  }

  /** What is known of a subtree `u` of the child `s` of the focus `t`. */
  ghost predicate Below(m: Mem, head: RbNode, p: Path, t: Tree, s: Tree, u: Tree)
    requires t.Node? && s.Node?
  {
    && (u.Node? ==> u.node in Nodes(u))
    && t.node !in Nodes(u) && s.node !in Nodes(u) && head !in Nodes(u) && Nodes(u) !! PathNodes(p)
    && Rep(m, head, u, s.node) && Distinct(u)
    && (s == t.left || Nodes(u) !! Nodes(t.left))
    && (s == t.right || Nodes(u) !! Nodes(t.right))
  }

  lemma RotatedLeftApart(m: Mem, head: RbNode, p: Path, t: Tree)
    requires RepAt(m, head, p, t) && t.Node? && t.right.Node?
    ensures Apart(head, p, RotatedLeft(t))
  {
    TwoLevels(m, head, p, t, t.right);
    var s, r := t.right, RotatedLeft(t);
    assert Nodes(s) == Nodes(s.left) + {s.node} + Nodes(s.right);
    assert Nodes(r.left) == Nodes(r.left.left) + {t.node} + Nodes(r.left.right);
    assert Nodes(r) == Nodes(r.left) + {r.node} + Nodes(r.right);
    assert Distinct(r.left);
  }

  /** The links that a left rotation changes, and how, amount to the rotated tree. */
  lemma LeftRotationMap(m: Mem, m': Mem, head: RbNode, p: Path, t: Tree)
    requires RepAt(m, head, p, t) && t.Node? && t.right.Node?
    requires {head, t.node, t.right.node, Up(p, head)} <= m.Keys == m'.Keys
    requires m'[t.node] == Cell(t.right.node, Root(t.left, head), Root(t.right.left, head), t.color)
    requires m'[t.right.node] == Cell(Up(p, head), t.node, Root(t.right.right, head), t.right.color)
    requires t.right.left.Node? ==>
      t.right.left.node in m && m'[t.right.left.node] == m[t.right.left.node].(parent := t.node)
    requires m'[Up(p, head)] == SlotCell(m[Up(p, head)], p, t.right.node)
    requires SameOn(m, m', m.Keys - {t.node, t.right.node, Up(p, head), Root(t.right.left, head)})
    requires p.Step? ==> m'[head] == m[head]
    ensures RepAt(m', head, p, RotatedLeft(t))
  {
    TwoLevels(m, head, p, t, t.right);
    RotatedLeftApart(m, head, p, t);
    var s, r := t.right, RotatedLeft(t);
    assert RepPath(m', head, p, r.node) by { SlotStored(m, m', head, p, t.node, r.node); }
    assert Rep(m', head, t.left, t.node) by { RepFrame(m, m', head, t.left, t.node); }
    assert Rep(m', head, s.left, t.node) by { RepMove(m, m', head, s.left, s.node, t.node); }
    assert Rep(m', head, s.right, s.node) by { RepFrame(m, m', head, s.right, s.node); }
    assert Rep(m', head, r.left, r.node);
  }

  lemma LeftRotation(m: Mem, ns: set<RbNode>, head: RbNode, p: Path, t: Tree)
    requires RepAt(m, head, p, t) && t.Node? && t.right.Node?
    requires {head, t.node, t.right.node, Up(p, head)} <= m.Keys == ns
    requires Is(t.node, Cell(t.right.node, Root(t.left, head), Root(t.right.left, head), t.color))
    requires Is(t.right.node, Cell(Up(p, head), t.node, Root(t.right.right, head), t.right.color))
    requires t.right.left.Node? ==>
      t.right.left.node in m && Is(t.right.left.node, m[t.right.left.node].(parent := t.node))
    requires Is(Up(p, head), SlotCell(m[Up(p, head)], p, t.right.node))
    requires Kept(m, ns - {t.node, t.right.node, Up(p, head), Root(t.right.left, head)})
    requires p.Step? ==> Is(head, m[head])
    ensures RepAt(Snap(ns), head, p, RotatedLeft(t))
  {
    hide RepAt; hide RotatedLeft;
    assert SameOn(m, Snap(ns), m.Keys - {t.node, t.right.node, Up(p, head), Root(t.right.left, head)});
    LeftRotationMap(m, Snap(ns), head, p, t);
  }

  lemma RotatedRightApart(m: Mem, head: RbNode, p: Path, t: Tree)
    requires RepAt(m, head, p, t) && t.Node? && t.left.Node?
    ensures Apart(head, p, RotatedRight(t))
  {
    TwoLevels(m, head, p, t, t.left);
    var s, r := t.left, RotatedRight(t);
    assert Nodes(s) == Nodes(s.left) + {s.node} + Nodes(s.right);
    assert Nodes(r.right) == Nodes(r.right.left) + {t.node} + Nodes(r.right.right);
    assert Nodes(r) == Nodes(r.left) + {r.node} + Nodes(r.right);
    assert Distinct(r.right);
  }

  /** The links that a right rotation changes, and how, amount to the rotated tree. */
  lemma RightRotationMap(m: Mem, m': Mem, head: RbNode, p: Path, t: Tree)
    requires RepAt(m, head, p, t) && t.Node? && t.left.Node?
    requires {head, t.node, t.left.node, Up(p, head)} <= m.Keys == m'.Keys
    requires m'[t.node] == Cell(t.left.node, Root(t.left.right, head), Root(t.right, head), t.color)
    requires m'[t.left.node] == Cell(Up(p, head), Root(t.left.left, head), t.node, t.left.color)
    requires t.left.right.Node? ==>
      t.left.right.node in m && m'[t.left.right.node] == m[t.left.right.node].(parent := t.node)
    requires m'[Up(p, head)] == SlotCell(m[Up(p, head)], p, t.left.node)
    requires SameOn(m, m', m.Keys - {t.node, t.left.node, Up(p, head), Root(t.left.right, head)})
    requires p.Step? ==> m'[head] == m[head]
    ensures RepAt(m', head, p, RotatedRight(t))
  {
    TwoLevels(m, head, p, t, t.left);
    RotatedRightApart(m, head, p, t);
    var s, r := t.left, RotatedRight(t);
    assert RepPath(m', head, p, r.node) by { SlotStored(m, m', head, p, t.node, r.node); }
    assert Rep(m', head, t.right, t.node) by { RepFrame(m, m', head, t.right, t.node); }
    assert Rep(m', head, s.right, t.node) by { RepMove(m, m', head, s.right, s.node, t.node); }
    assert Rep(m', head, s.left, s.node) by { RepFrame(m, m', head, s.left, s.node); }
    assert Rep(m', head, r.right, r.node);
  }

  lemma RightRotation(m: Mem, ns: set<RbNode>, head: RbNode, p: Path, t: Tree)
    requires RepAt(m, head, p, t) && t.Node? && t.left.Node?
    requires {head, t.node, t.left.node, Up(p, head)} <= m.Keys == ns
    requires Is(t.node, Cell(t.left.node, Root(t.left.right, head), Root(t.right, head), t.color))
    requires Is(t.left.node, Cell(Up(p, head), Root(t.left.left, head), t.node, t.left.color))
    requires t.left.right.Node? ==>
      t.left.right.node in m && Is(t.left.right.node, m[t.left.right.node].(parent := t.node))
    requires Is(Up(p, head), SlotCell(m[Up(p, head)], p, t.left.node))
    requires Kept(m, ns - {t.node, t.left.node, Up(p, head), Root(t.left.right, head)})
    requires p.Step? ==> Is(head, m[head])
    ensures RepAt(Snap(ns), head, p, RotatedRight(t))
  {
    hide RepAt; hide RotatedRight;
    assert SameOn(m, Snap(ns), m.Keys - {t.node, t.left.node, Up(p, head), Root(t.left.right, head)});
    RightRotationMap(m, Snap(ns), head, p, t);
  }
}
