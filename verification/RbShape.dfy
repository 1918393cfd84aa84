/** The red-black tree of kernel/rbtree.c seen as data: what the links of the nodes amount to.

    Every tree owns one sentinel, `head`, which plays two parts: it is the nil node below every
    leaf, and its three links cache the root (`parent`), the leftmost node (`left`) and the
    rightmost node (`right`).  The source's `_isnil` flag is set on the sentinel alone and never
    changes, so it is modelled by the comparison with `head`.

    Proofs are about snapshots of the nodes' fields, which are plain maps. */
module RbShape {

  datatype Color = Red | Black

  /** What the `data` pointer of a node refers to (kernel/rbtree.h:29-44). */
  datatype Data =
    | MmapNode(addr: nat, sz: nat, perm: nat, flag: nat)
    | RefCntNode(addr: nat, refCnt: nat)

  class RbNode {
    var parent: RbNode
    var left: RbNode
    var right: RbNode
    var color: Color
    const data: Data

    constructor (data: Data)
      ensures parent == left == right == this && color == Red && this.data == data
    {
      parent, left, right, color := this, this, this, Red;
      this.data := data;
    }
  }

  /** The four link fields of one node. */
  datatype Cell = Cell(parent: RbNode, left: RbNode, right: RbNode, color: Color)

  type Mem = map<RbNode, Cell>

  ghost function Snap(ns: set<RbNode>): (m: Mem)
    reads ns
    ensures m.Keys == ns
  {
    map n | n in ns :: Cell(n.parent, n.left, n.right, n.color)
  }

  datatype Tree = Leaf | Node(left: Tree, node: RbNode, color: Color, right: Tree)

  /** A tree with one subtree missing: the way from the hole up to the root.  At each step the hole
      is the left or the right child of `node`, and `sibling` is the other child. */
  datatype Path = Top | Step(up: Path, isLeft: bool, node: RbNode, color: Color, sibling: Tree)

  // ---------------------------------------------------------------------------------------
  // Trees and zippers

  function Join(p: Path, t: Tree): Tree
    requires p.Step?
  {
    if p.isLeft then Node(t, p.node, p.color, p.sibling) else Node(p.sibling, p.node, p.color, t)
  }

  ghost function Plug(p: Path, t: Tree): Tree
  {
    if p.Top? then t else Plug(p.up, Join(p, t))
  }

  ghost function Inorder(t: Tree): seq<RbNode>
  {
    if t.Leaf? then [] else Inorder(t.left) + [t.node] + Inorder(t.right)
  }

  ghost function Before(p: Path): seq<RbNode>
  {
    if p.Top? then []
    else if p.isLeft then Before(p.up)
    else Before(p.up) + (Inorder(p.sibling) + [p.node])
  }

  ghost function After(p: Path): seq<RbNode>
  {
    if p.Top? then []
    else if p.isLeft then [p.node] + Inorder(p.sibling) + After(p.up)
    else After(p.up)
  }

  lemma {:induction false} InorderPlug(p: Path, t: Tree)
    ensures Inorder(Plug(p, t)) == Before(p) + Inorder(t) + After(p)
  {
    if p.Step? {
      InorderPlug(p.up, Join(p, t));
      var b, x, s, a := Before(p.up), Inorder(t), Inorder(p.sibling), After(p.up);
      if p.isLeft {
        assert b + (x + [p.node] + s) + a == b + x + ([p.node] + s + a);
      } else {
        assert b + (s + [p.node] + x) + a == b + (s + [p.node]) + x + a;
      }
    }
  }

  ghost function Nodes(t: Tree): set<RbNode>
  {
    if t.Leaf? then {} else Nodes(t.left) + {t.node} + Nodes(t.right)
  }

  ghost function PathNodes(p: Path): set<RbNode>
  {
    if p.Top? then {} else PathNodes(p.up) + {p.node} + Nodes(p.sibling)
  }

  lemma {:induction false} PlugNodes(p: Path, t: Tree)
    ensures Nodes(Plug(p, t)) == PathNodes(p) + Nodes(t)
  {
    if p.Step? {
      PlugNodes(p.up, Join(p, t));
    }
  }

  ghost predicate Distinct(t: Tree)
  {
    t.Node? ==>
      && t.node !in Nodes(t.left) && t.node !in Nodes(t.right)
      && Nodes(t.left) !! Nodes(t.right)
      && Distinct(t.left) && Distinct(t.right)
  }

  ghost predicate DistinctPath(p: Path)
  {
    p.Step? ==>
      && p.node !in Nodes(p.sibling) && p.node !in PathNodes(p.up)
      && Nodes(p.sibling) !! PathNodes(p.up)
      && Distinct(p.sibling) && DistinctPath(p.up)
  }

  ghost predicate NoDup(xs: seq<RbNode>)
  {
    forall i, j :: 0 <= i < j < |xs| ==> xs[i] != xs[j]
  }

  lemma {:induction false} InorderNodes(t: Tree)
    ensures forall i :: 0 <= i < |Inorder(t)| ==> Inorder(t)[i] in Nodes(t)
  {
    if t.Node? {
      InorderNodes(t.left);
      InorderNodes(t.right);
    }
  }

  lemma {:induction false} IndexOf(t: Tree, x: RbNode) returns (i: nat)
    requires x in Nodes(t)
    ensures i < |Inorder(t)| && Inorder(t)[i] == x
  {
    if x == t.node {
      i := |Inorder(t.left)|;
    } else if x in Nodes(t.left) {
      i := IndexOf(t.left, x);
    } else {
      i := IndexOf(t.right, x);
      i := |Inorder(t.left)| + 1 + i;
    }
  }

  lemma SameNodes(t: Tree, u: Tree)
    requires Inorder(t) == Inorder(u)
    ensures Nodes(t) == Nodes(u)
  {
    InorderNodes(t);
    InorderNodes(u);
    forall x | x in Nodes(t) ensures x in Nodes(u) { var i := IndexOf(t, x); }
    forall x | x in Nodes(u) ensures x in Nodes(t) { var i := IndexOf(u, x); }
  }

  lemma ErasedNodes(t: Tree, u: Tree, i: nat)
    requires i < |Inorder(t)| && NoDup(Inorder(t)) && Inorder(u) == Inorder(t)[..i] + Inorder(t)[i + 1..]
    ensures Nodes(u) == Nodes(t) - {Inorder(t)[i]}
  {
    InorderNodes(t);
    InorderNodes(u);
    var e := Inorder(t)[i];
    forall x | x in Nodes(t) && x != e ensures x in Nodes(u) {
      var j := IndexOf(t, x);
      assert Inorder(u)[if j < i then j else j - 1] == x;
    }
    forall x | x in Nodes(u) ensures x in Nodes(t) && x != e {
      var k := IndexOf(u, x);
      assert Inorder(t)[if k < i then k else k + 1] == x;
    }
  }

  lemma {:induction false} DistinctNoDup(t: Tree)
    requires Distinct(t)
    ensures NoDup(Inorder(t))
  {
    if t.Node? {
      DistinctNoDup(t.left);
      DistinctNoDup(t.right);
      InorderNodes(t.left);
      InorderNodes(t.right);
      NoDupConcat(Inorder(t.left), [t.node]);
      NoDupConcat(Inorder(t.left) + [t.node], Inorder(t.right));
    }
  }

  lemma NoDupConcat(xs: seq<RbNode>, ys: seq<RbNode>)
    requires NoDup(xs) && NoDup(ys)
    requires forall i, j :: 0 <= i < |xs| && 0 <= j < |ys| ==> xs[i] != ys[j]
    ensures NoDup(xs + ys)
  {
  }

  // ---------------------------------------------------------------------------------------
  // What it means for the nodes to hold a tree

  function Root(t: Tree, head: RbNode): RbNode
  {
    if t.Leaf? then head else t.node
  }

  function Up(p: Path, head: RbNode): RbNode
  {
    if p.Top? then head else p.node
  }

  /** The snapshot holds `t` below a node `parent`: every node has exactly the links and the
      colour that its place in `t` prescribes. */
  ghost predicate Rep(m: Mem, head: RbNode, t: Tree, parent: RbNode)
  {
    t.Node? ==>
      && t.node in m && m[t.node] == Cell(parent, Root(t.left, head), Root(t.right, head), t.color)
      && Rep(m, head, t.left, t.node)
      && Rep(m, head, t.right, t.node)
  }

  /** The snapshot holds the path `p`, whose empty slot currently contains the pointer `hole`. */
  ghost predicate RepPath(m: Mem, head: RbNode, p: Path, hole: RbNode)
    requires head in m
  {
    if p.Top? then m[head].parent == hole
    else
      && p.node in m
      && m[p.node] == (if p.isLeft then Cell(Up(p.up, head), hole, Root(p.sibling, head), p.color)
                       else Cell(Up(p.up, head), Root(p.sibling, head), hole, p.color))
      && Rep(m, head, p.sibling, p.node) && RepPath(m, head, p.up, p.node)
  }

  /** All node pointers of the zipper are different from one another and from the sentinel. */
  ghost predicate Apart(head: RbNode, p: Path, t: Tree)
  {
    && head !in Nodes(t) && head !in PathNodes(p)
    && Distinct(t) && DistinctPath(p) && Nodes(t) !! PathNodes(p)
  }

  /** The snapshot holds the tree `Plug(p, t)`, seen from the root of `t`. */
  ghost predicate RepAt(m: Mem, head: RbNode, p: Path, t: Tree)
  {
    && head in m && m[head].color == Black
    && Apart(head, p, t)
    && Rep(m, head, t, Up(p, head))
    && RepPath(m, head, p, Root(t, head))
  }

  /** The zipper moves up one node. */
  lemma ZipUp(m: Mem, head: RbNode, p: Path, t: Tree)
    requires p.Step?
    ensures RepAt(m, head, p, t) <==> RepAt(m, head, p.up, Join(p, t))
    ensures Plug(p, t) == Plug(p.up, Join(p, t))
  {
    assert PathNodes(p) == PathNodes(p.up) + {p.node} + Nodes(p.sibling);
    assert Nodes(Join(p, t)) == Nodes(t) + {p.node} + Nodes(p.sibling);
  }

  /** The zipper may be moved all the way to the root. */
  lemma {:induction false} ZipTop(m: Mem, head: RbNode, p: Path, t: Tree)
    ensures RepAt(m, head, p, t) <==> RepAt(m, head, Top, Plug(p, t))
  {
    if p.Step? {
      ZipUp(m, head, p, t);
      ZipTop(m, head, p.up, Join(p, t));
    }
  }

  // ---------------------------------------------------------------------------------------
  // Frames: which changes leave which part of the structure alone

  ghost predicate SameOn(m: Mem, m': Mem, ns: set<RbNode>)
  {
    forall x :: x in ns && x in m ==> x in m' && m'[x] == m[x]
  }

  lemma {:induction false} RepFrame(m: Mem, m': Mem, head: RbNode, t: Tree, parent: RbNode)
    requires Rep(m, head, t, parent) && SameOn(m, m', Nodes(t))
    ensures Rep(m', head, t, parent)
  {
    if t.Node? {
      assert t.node in Nodes(t);
      RepFrame(m, m', head, t.left, t.node);
      RepFrame(m, m', head, t.right, t.node);
    }
  }

  /** The same for the whole tree and its sentinel. */
  lemma TopFrame(m: Mem, m': Mem, head: RbNode, t: Tree)
    requires RepAt(m, head, Top, t) && SameOn(m, m', Nodes(t)) && head in m && head in m' && m'[head] == m[head]
    ensures RepAt(m', head, Top, t)
  {
    RepFrame(m, m', head, t, head);
  }

  /** Hanging a subtree below another node only rewrites the parent link of its root. */
  lemma RepMove(m: Mem, m': Mem, head: RbNode, t: Tree, parent: RbNode, parent': RbNode)
    requires Rep(m, head, t, parent) && Distinct(t)
    requires t.Node? ==>
      && t.node in m && t.node in m' && m'[t.node] == m[t.node].(parent := parent')
      && SameOn(m, m', Nodes(t) - {t.node})
    ensures Rep(m', head, t, parent')
  {
    if t.Node? {
      RepFrame(m, m', head, t.left, t.node);
      RepFrame(m, m', head, t.right, t.node);
    }
  }

  lemma {:induction false} PathFrame(m: Mem, m': Mem, head: RbNode, p: Path, hole: RbNode)
    requires head in m && head in m' && RepPath(m, head, p, hole)
    requires SameOn(m, m', PathNodes(p)) && m'[head].parent == m[head].parent
    ensures RepPath(m', head, p, hole)
  {
    if p.Step? {
      assert p.node in PathNodes(p);
      RepFrame(m, m', head, p.sibling, p.node);
      PathFrame(m, m', head, p.up, p.node);
    }
  }

  /** The cell that holds the pointer to the subtree in the hole, with `v` stored there. */
  function SlotCell(c: Cell, p: Path, v: RbNode): Cell
  {
    if p.Top? then c.(parent := v) else if p.isLeft then c.(left := v) else c.(right := v)
  }

  lemma SlotStored(m: Mem, m': Mem, head: RbNode, p: Path, hole: RbNode, hole': RbNode)
    requires head in m && head in m' && RepPath(m, head, p, hole)
    requires DistinctPath(p)
    requires p.Top? ==> m'[head].parent == hole'
    requires p.Step? ==>
      && m'[head].parent == m[head].parent
      && p.node in m && p.node in m' && m'[p.node] == SlotCell(m[p.node], p, hole')
    requires SameOn(m, m', PathNodes(p) - {Up(p, head)})
    ensures RepPath(m', head, p, hole')
  {
    if p.Step? {
      PathFrame(m, m', head, p.up, p.node);
      RepFrame(m, m', head, p.sibling, p.node);
    }
  }

  lemma {:induction false} RootOnPath(m: Mem, head: RbNode, p: Path, hole: RbNode)
    requires head in m && RepPath(m, head, p, hole)
    ensures if p.Top? then m[head].parent == hole else m[head].parent in PathNodes(p)
  {
    if p.Step? {
      RootOnPath(m, head, p.up, p.node);
    }
  }

  lemma {:induction false} RepBound(m: Mem, head: RbNode, t: Tree, parent: RbNode)
    requires Rep(m, head, t, parent)
    ensures Nodes(t) <= m.Keys
  {
    if t.Node? {
      RepBound(m, head, t.left, t.node);
      RepBound(m, head, t.right, t.node);
    }
  }

  lemma {:induction false} PathBound(m: Mem, head: RbNode, p: Path, hole: RbNode)
    requires head in m && RepPath(m, head, p, hole)
    ensures PathNodes(p) <= m.Keys
  {
    if p.Step? {
      PathBound(m, head, p.up, p.node);
      RepBound(m, head, p.sibling, p.node);
    }
  }

  /** Only node `n` has changed, and there only as `c` says. */
  ghost predicate Stored(m: Mem, m': Mem, n: RbNode, c: Cell)
  {
    n in m && n in m' && m'[n] == c && SameOn(m, m', m.Keys - {n})
  }

  /** Recolouring the root of the focus. */
  lemma Recolored(m: Mem, m': Mem, head: RbNode, p: Path, t: Tree, c: Color)
    requires RepAt(m, head, p, t) && t.Node? && t.node in m && Stored(m, m', t.node, m[t.node].(color := c))
    ensures RepAt(m', head, p, t.(color := c))
  {
    RepFrame(m, m', head, t.left, t.node);
    RepFrame(m, m', head, t.right, t.node);
    PathFrame(m, m', head, p, t.node);
    assert Nodes(t.(color := c)) == Nodes(t);
  }
}
