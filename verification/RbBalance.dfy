/** Colours, black heights and order: what makes a tree a balanced search tree. */
module RbBalance {
  import opened RbShape

  predicate IsRed(t: Tree)
  {
    t.Node? && t.color.Red?
  }

  function Blacks(c: Color): nat
  {
    if c.Black? then 1 else 0
  }

  ghost function BlackHeight(t: Tree): nat
  {
    if t.Leaf? then 0 else BlackHeight(t.left) + Blacks(t.color)
  }

  /** No red node has a red child, and all ways down pass equally many black nodes. */
  ghost predicate RedBlack(t: Tree)
  {
    t.Node? ==>
      && RedBlack(t.left) && RedBlack(t.right)
      && BlackHeight(t.left) == BlackHeight(t.right)
      && (t.color.Red? ==> !IsRed(t.left) && !IsRed(t.right))
  }

  /** A red subtree fits the hole. */
  predicate TakesRed(p: Path)
  {
    p.Step? && p.color.Black?
  }

  /** Around the hole everything is balanced, provided the hole holds black height `h`.
      The root is black, so a red node is never at the top. */
  ghost predicate PathRedBlack(p: Path, h: nat)
  {
    p.Step? ==>
      && RedBlack(p.sibling) && BlackHeight(p.sibling) == h
      && (p.color.Red? ==> !IsRed(p.sibling) && TakesRed(p.up))
      && PathRedBlack(p.up, h + Blacks(p.color))
  }

  lemma {:induction false} PlugRedBlack(p: Path, t: Tree)
    requires RedBlack(t) && PathRedBlack(p, BlackHeight(t)) && (IsRed(t) ==> TakesRed(p))
    ensures RedBlack(Plug(p, t)) && !IsRed(Plug(p, t))
  {
    if p.Step? {
      PlugRedBlack(p.up, Join(p, t));
    }
  }

  function Blacken(t: Tree): Tree
  {
    if t.Leaf? then t else t.(color := Black)
  }

  ghost function Length(p: Path): nat
  {
    if p.Top? then 0 else 1 + Length(p.up)
  }

  /** The zipper seen from the sibling of the focus. */
  function Turned(p: Path, t: Tree): Path
    requires p.Step?
  {
    Step(p.up, !p.isLeft, p.node, p.color, t)
  }

  lemma Turn(m: Mem, head: RbNode, p: Path, t: Tree)
    requires p.Step?
    ensures RepAt(m, head, p, t) <==> RepAt(m, head, Turned(p, t), p.sibling)
    ensures Turned(Turned(p, t), p.sibling) == p && Join(Turned(p, t), p.sibling) == Join(p, t)
  {
    ZipUp(m, head, p, t);
    ZipUp(m, head, Turned(p, t), p.sibling);
  }

  /** Replacing the focus by a tree with the same in-order sequence. */
  lemma SameOrder(p: Path, t: Tree, t': Tree)
    requires Inorder(t) == Inorder(t')
    ensures Inorder(Plug(p, t)) == Inorder(Plug(p, t'))
  {
    InorderPlug(p, t);
    InorderPlug(p, t');
  }

  // ---------------------------------------------------------------------------------------
  // Rotations

  function RotatedLeft(t: Tree): Tree
    requires t.Node? && t.right.Node?
  {
    Node(Node(t.left, t.node, t.color, t.right.left), t.right.node, t.right.color, t.right.right)
  }

  function RotatedRight(t: Tree): Tree
    requires t.Node? && t.left.Node?
  {
    Node(t.left.left, t.left.node, t.left.color, Node(t.left.right, t.node, t.color, t.right))
  }

  /** The rotation that lifts the child opposite to the side `isLeft`. */
  function Rotated(t: Tree, isLeft: bool): Tree
    requires t.Node? && (if isLeft then t.right.Node? else t.left.Node?)
  {
    if isLeft then RotatedLeft(t) else RotatedRight(t)
  }

  lemma RotationOrder(t: Tree, isLeft: bool)
    requires t.Node? && (if isLeft then t.right.Node? else t.left.Node?)
    ensures Inorder(Rotated(t, isLeft)) == Inorder(t)
  {
    if isLeft {
      RotationParts(Inorder(t.left), t.node, Inorder(t.right.left), t.right.node, Inorder(t.right.right));
    } else {
      RotationParts(Inorder(t.left.left), t.left.node, Inorder(t.left.right), t.node, Inorder(t.right));
    }
  }

  lemma RotationParts(A: seq<RbNode>, x: RbNode, B: seq<RbNode>, y: RbNode, D: seq<RbNode>)
    ensures A + [x] + (B + [y] + D) == (A + [x] + B) + [y] + D
  {
  }

  // ---------------------------------------------------------------------------------------
  // Insertion: rebalancing on the way up

  /** Everything is balanced, except that the red focus may hang below a red node. */
  ghost predicate OneRedRed(p: Path, t: Tree)
  {
    IsRed(t) && RedBlack(t) && PathRedBlack(p, BlackHeight(t))
  }

  /** Parent and uncle black, grandparent red: the new focus after recolouring. */
  function Promoted(p: Path, t: Tree): Tree
    requires p.Step? && p.up.Step? && p.up.sibling.Node?
  {
    Join(p.up.(color := Red, sibling := p.up.sibling.(color := Black)), Join(p.(color := Black), t))
  }

  lemma PromotedBalance(p: Path, t: Tree)
    requires OneRedRed(p, t) && p.Step? && p.color.Red? && IsRed(p.up.sibling)
    ensures OneRedRed(p.up.up, Promoted(p, t))
    ensures Inorder(Plug(p.up.up, Promoted(p, t))) == Inorder(Plug(p, t))
    ensures Length(p.up.up) < Length(p)
  {
    var i, k := Join(p.(color := Black), t), Join(p, t);
    assert RedBlack(i) && Inorder(i) == Inorder(k);
    assert PathRedBlack(p.up, BlackHeight(t));
    assert Inorder(p.up.sibling.(color := Black)) == Inorder(p.up.sibling);
    assert RedBlack(p.up.sibling.(color := Black));
    var j := Join(p.up, k);
    SameOrder(p.up.up, Promoted(p, t), j);
    assert Plug(p.up, k) == Plug(p.up.up, j);
  }

  /** An inner focus becomes an outer one: rotating the parent swaps it with the focus. */
  function Straight(p: Path, t: Tree): (Path, Tree)
    requires p.Step? && t.Node?
  {
    if p.isLeft then (Step(p.up, false, t.node, t.color, t.left), Node(t.right, p.node, p.color, p.sibling))
    else (Step(p.up, true, t.node, t.color, t.right), Node(p.sibling, p.node, p.color, t.left))
  }

  lemma Straighten(p: Path, t: Tree)
    requires OneRedRed(p, t) && p.Step? && p.color.Red?
    ensures var (q, u) := Straight(p, t);
      && OneRedRed(q, u) && Length(q) == Length(p) && q.color.Red? && q.up == p.up
      && Join(q, u) == Rotated(Join(p, t), !p.isLeft)
      && Inorder(Plug(q, u)) == Inorder(Plug(p, t))
  {
    var (q, u) := Straight(p, t);
    RotationOrder(Join(p, t), !p.isLeft);
    SameOrder(p.up, Join(p, t), Join(q, u));
  }

  /** An outer focus is mended by recolouring and a rotation at the grandparent. */
  function Outer(p: Path): Path
    requires p.Step? && p.up.Step?
  {
    Step(p.up.up, p.isLeft, p.node, Black, Join(p.up.(color := Red), p.sibling))
  }

  lemma MendOuter(p: Path, t: Tree)
    requires OneRedRed(p, t) && p.Step? && p.color.Red? && p.up.isLeft == p.isLeft && !IsRed(p.up.sibling)
    ensures OneRedRed(Outer(p), t) && Length(Outer(p)) < Length(p)
    ensures Join(Outer(p), t) == Rotated(Join(p.up.(color := Red), Join(p.(color := Black), t)), !p.isLeft)
    ensures Inorder(Plug(Outer(p), t)) == Inorder(Plug(p, t))
  {
    var j, i := Join(p.up, Join(p, t)), Join(p.up.(color := Red), Join(p.(color := Black), t));
    assert PathRedBlack(p.up, BlackHeight(t));
    RotationOrder(i, !p.isLeft);
    assert Inorder(i) == Inorder(j) by { assert Inorder(Join(p.(color := Black), t)) == Inorder(Join(p, t)); }
    SameOrder(p.up.up, Join(Outer(p), t), j);
    assert Plug(p.up, Join(p, t)) == Plug(p.up.up, j);
    assert RedBlack(Join(p.up.(color := Red), p.sibling));
  }

  // ---------------------------------------------------------------------------------------
  // Erasing: the focus lacks one black node

  /** The children of the sibling: the one next to the hole, and the other one. */
  function Near(p: Path): Tree
    requires p.Step? && p.sibling.Node?
  {
    if p.isLeft then p.sibling.left else p.sibling.right
  }

  function Far(p: Path): Tree
    requires p.Step? && p.sibling.Node?
  {
    if p.isLeft then p.sibling.right else p.sibling.left
  }

  /** A tree node whose children are named by their distance from the hole. */
  function Beside(isLeft: bool, near: Tree, n: RbNode, c: Color, far: Tree): Tree
  {
    if isLeft then Node(near, n, c, far) else Node(far, n, c, near)
  }

  /** The focus `f` is one black node short; only its root may still be red below a red node or
      have a red child. */
  ghost predicate OneShort(p: Path, f: Tree)
  {
    RedBlack(Blacken(f)) && PathRedBlack(p, BlackHeight(f) + 1)
  }

  /** Nothing is short any more. */
  ghost predicate Mended(p: Path, f: Tree)
  {
    RedBlack(f) && PathRedBlack(p, BlackHeight(f)) && !IsRed(f)
  }

  lemma HasSibling(p: Path, f: Tree)
    requires OneShort(p, f) && p.Step?
    ensures p.sibling.Node? && RedBlack(p.sibling)
    ensures IsRed(p.sibling) ==> p.color.Black? && Near(p).Node? && !IsRed(Near(p))
  {
  }

  /** A red sibling is rotated away. */
  function BlackSibling(p: Path): Path
    requires p.Step? && p.sibling.Node?
  {
    Step(Step(p.up, p.isLeft, p.sibling.node, Black, Far(p)), p.isLeft, p.node, Red, Near(p))
  }

  lemma RedSiblingCase(p: Path, f: Tree)
    requires OneShort(p, f) && p.Step? && IsRed(p.sibling) && !IsRed(f)
    ensures var q := BlackSibling(p);
      && OneShort(q, f) && q.sibling.Node? && !IsRed(q.sibling) && q.isLeft == p.isLeft
      && Join(q.up, Join(q, f)) == Rotated(Join(p.(color := Red, sibling := p.sibling.(color := Black)), f), p.isLeft)
      && Inorder(Plug(q, f)) == Inorder(Plug(p, f))
  {
    var q := BlackSibling(p);
    assert RedBlack(p.sibling) && RedBlack(Near(p)) && RedBlack(Far(p));
    var j := Join(p.(color := Red, sibling := p.sibling.(color := Black)), f);
    RotationOrder(j, p.isLeft);
    assert Inorder(j) == Inorder(Join(p, f)) by { assert Inorder(p.sibling.(color := Black)) == Inorder(p.sibling); }
    SameOrder(p.up, Join(q.up, Join(q, f)), Join(p, f));
    assert Plug(q, f) == Plug(q.up, Join(q, f));
  }

  /** A black sibling without red children turns red, and the node above becomes the focus. */
  lemma PushUp(p: Path, f: Tree)
    requires OneShort(p, f) && p.Step? && !IsRed(f) && p.sibling.Node? && !IsRed(p.sibling)
    requires !IsRed(p.sibling.left) && !IsRed(p.sibling.right)
    ensures OneShort(p.up, Join(p.(sibling := p.sibling.(color := Red)), f))
    ensures Inorder(Plug(p.up, Join(p.(sibling := p.sibling.(color := Red)), f))) == Inorder(Plug(p, f))
  {
    var s := p.sibling.(color := Red);
    assert RedBlack(s) && Inorder(s) == Inorder(p.sibling);
    SameOrder(p.up, Join(p.(sibling := s), f), Join(p, f));
  }

  /** Pushing up brings the focus nearer to the root, unless its new root is red and ends the loop. */
  lemma PushedUp(p: Path, q: Path, f: Tree)
    requires p.Step? && (q == p || (p.sibling.Node? && q == BlackSibling(p)))
    ensures IsRed(Join(q, f)) || Length(q.up) < Length(p)
  {
  }

  /** A red near child of the sibling is rotated to the far side. */
  function FarRed(p: Path): Path
    requires p.Step? && p.sibling.Node? && Near(p).Node?
  {
    var n := Near(p);
    var (a, b) := if p.isLeft then (n.left, n.right) else (n.right, n.left);
    p.(sibling := Beside(p.isLeft, a, n.node, Black, Beside(p.isLeft, b, p.sibling.node, Red, Far(p))))
  }

  lemma NearRedCase(p: Path, f: Tree)
    requires OneShort(p, f) && p.Step? && p.sibling.Node? && !IsRed(p.sibling) && IsRed(Near(p)) && !IsRed(Far(p))
    ensures var q := FarRed(p);
      && OneShort(q, f) && !IsRed(q.sibling) && IsRed(Far(q))
      && q.sibling == Rotated(Beside(p.isLeft, Near(p).(color := Black), p.sibling.node, Red, Far(p)), !p.isLeft)
      && Inorder(Plug(q, f)) == Inorder(Plug(p, f))
  {
    var q, s := FarRed(p), Beside(p.isLeft, Near(p).(color := Black), p.sibling.node, Red, Far(p));
    assert RedBlack(p.sibling) && RedBlack(Near(p)) && RedBlack(Far(p));
    RotationOrder(s, !p.isLeft);
    assert Inorder(Near(p).(color := Black)) == Inorder(Near(p));
    assert Inorder(s) == Inorder(p.sibling);
    assert RedBlack(Far(q));
    SameOrder(p.up, Join(q, f), Join(p, f));
  }

  /** The last rotation: the sibling takes the place and the colour of the node above. */
  function Repaid(p: Path): Path
    requires p.Step? && p.sibling.Node?
  {
    Step(Step(p.up, p.isLeft, p.sibling.node, p.color, Blacken(Far(p))), p.isLeft, p.node, Black, Near(p))
  }

  lemma FarRedCase(p: Path, f: Tree)
    requires OneShort(p, f) && !IsRed(f) && p.Step? && p.sibling.Node? && !IsRed(p.sibling) && IsRed(Far(p))
    ensures var q := Repaid(p);
      && Mended(q, f)
      && Join(q.up, Join(q, f)) == Rotated(Join(p.(color := Black,
                                               sibling := Beside(p.isLeft, Near(p), p.sibling.node, p.color,
                                                 Blacken(Far(p)))), f), p.isLeft)
      && Inorder(Plug(q, f)) == Inorder(Plug(p, f))
  {
    var q, s := Repaid(p), Beside(p.isLeft, Near(p), p.sibling.node, p.color, Blacken(Far(p)));
    var j := Join(p.(color := Black, sibling := s), f);
    assert RedBlack(p.sibling) && RedBlack(Near(p)) && RedBlack(Far(p));
    RotationOrder(j, p.isLeft);
    assert Inorder(Blacken(Far(p))) == Inorder(Far(p));
    assert Inorder(s) == Inorder(p.sibling);
    assert Inorder(j) == Inorder(Join(p, f));
    SameOrder(p.up, Join(q.up, Join(q, f)), Join(p, f));
    assert Plug(q, f) == Plug(q.up, Join(q, f));
  }

  lemma MendedDone(p: Path, f: Tree)
    requires Mended(p, f)
    ensures RedBlack(Plug(p, f)) && !IsRed(Plug(p, f))
  {
    PlugRedBlack(p, f);
  }

  /** After the loop the focus is painted black. */
  lemma EraseDone(p: Path, f: Tree)
    requires Mended(p, f) || (OneShort(p, f) && (p.Top? || IsRed(f)))
    ensures var r := Plug(p, Blacken(f)); RedBlack(r) && !IsRed(r) && Inorder(r) == Inorder(Plug(p, f))
  {
    PlugRedBlack(p, Blacken(f));
    assert Inorder(Blacken(f)) == Inorder(f);
    SameOrder(p, Blacken(f), f);
  }
}
