/** kernel/rbtree.c: an intrusive red-black tree with parent pointers and one sentinel node. */
module RbTree {
  import opened Common
  import opened RbShape
  import opened RbBalance
  import opened RbOrder
  import opened RbLinks

  class RbTree {
    const head: RbNode
    const multi: bool
    const comp: Order
    var size: nat
    ghost var tree: Tree
    ghost var repr: set<RbNode>

    /** Structure, balance, cached ends and size. */
    ghost predicate Shaped()
      reads this, repr
    {
      && repr == {head} + Nodes(tree)
      && RepAt(Snap(repr), head, Top, tree) && RedBlack(tree) && !IsRed(tree)
      && head.left == First(Elements(), head) && head.right == Last(Elements(), head)
      && size == |Elements()|
    }

    ghost predicate Valid()
      reads this, repr
    {
      Shaped() && StrictWeakOrder(comp) && Sorted(Elements(), comp, multi)
    }

    /** The nodes of the tree in order. */
    ghost function Elements(): seq<RbNode>
      reads this
    {
      Inorder(tree)
    }

    /** The nodes of the tree are seen from the root of the subtree `t`. */
    ghost predicate Here(p: Path, t: Tree)
      reads this, repr
    {
      RepAt(Snap(repr), head, p, t) && Plug(p, t) == tree
    }

    /** rb_init: the sentinel refers to itself three times, the tree is empty. */
    constructor (multi: bool, comp: Order)
      requires StrictWeakOrder(comp)
      ensures Valid() && fresh(repr) && Elements() == [] && this.multi == multi && this.comp == comp
    {
      var h := new RbNode(RefCntNode(0, 0));
      head := h;
      this.multi, this.comp, size := multi, comp, 0;
      tree, repr := Leaf, {h};
      new;
      head.color := Black;
    }

    // -------------------------------------------------------------------------------------
    // Steps in order

    /** node_min */
    method NodeMin(node: RbNode, ghost p: Path, ghost t: Tree) returns (res: RbNode, ghost steps: nat)
      requires RepAt(Snap(repr), head, p, t) && t.Node? && t.node == node
      ensures steps + 1 == LeftSpine(t)
      ensures var (q, u) := Leftmost(p, t); RepAt(Snap(repr), head, q, u) && res == u.node == Inorder(t)[0]
    {
      LeftmostIsFirst(p, t);
      ghost var q, u := p, t;
      res, steps := node, 0;
      Down(repr, head, q, u);
      while res.left != head
        invariant steps + LeftSpine(u) == LeftSpine(t)
        invariant RepAt(Snap(repr), head, q, u) && u.Node? && res == u.node
        invariant Leftmost(q, u) == Leftmost(p, t) && (res.left == head <==> u.left.Leaf?)
        decreases u
      {
        Down(repr, head, q, u);
        res, steps := res.left, steps + 1;
        q, u := GoLeft(q, u), u.left;
        Down(repr, head, q, u);
      }
    }

    /** node_max */
    method NodeMax(node: RbNode, ghost p: Path, ghost t: Tree) returns (res: RbNode)
      requires RepAt(Snap(repr), head, p, t) && t.Node? && t.node == node
      ensures var (q, u) := Rightmost(p, t);
        RepAt(Snap(repr), head, q, u) && res == u.node == Inorder(t)[|Inorder(t)| - 1]
    {
      RightmostIsLast(p, t);
      ghost var q, u := p, t;
      res := node;
      Down(repr, head, q, u);
      while res.right != head
        invariant RepAt(Snap(repr), head, q, u) && u.Node? && res == u.node
        invariant Rightmost(q, u) == Rightmost(p, t) && (res.right == head <==> u.right.Leaf?)
        decreases u
      {
        Down(repr, head, q, u);
        res := res.right;
        q, u := GoRight(q, u), u.right;
        Down(repr, head, q, u);
      }
    }

    /** node_next, seen from the zipper of the node. */
    method NodeNext(node: RbNode, ghost p: Path, ghost t: Tree) returns (res: RbNode, ghost steps: nat)
      requires RepAt(Snap(repr), head, p, t) && t.Node? && t.node == node
      ensures res == First(Inorder(t.right) + After(p), head)
      ensures t.right.Node? ==> res == Leftmost(GoRight(p, t), t.right).1.node
      ensures steps == NextSteps(p, t)
    {
      Down(repr, head, p, t);
      if node.right == head {
        ghost var q, u := p, t;
        res := node;
        var parent := res.parent;
        steps := 1;
        Upwards(repr, head, q, u);
        while parent != head && res == parent.right
          invariant RepAt(Snap(repr), head, q, u) && u.Node? && res == u.node && parent == Up(q, head)
          invariant After(q) == After(p) && steps + Climb(q) == Climb(p) + 1
          decreases Length(q)
        {
          Upwards(repr, head, q, u);
          res := parent;
          q, u := q.up, Join(q, u);
          parent := res.parent;
          steps := steps + 1;
          Upwards(repr, head, q, u);
        }
        Upwards(repr, head, q, u);
        res := parent;
      } else {
        res, steps := NodeMin(node.right, GoRight(p, t), t.right);
        steps := steps + 1;
        LeftmostIsFirst(GoRight(p, t), t.right);
      }
    }

    /** node_prev of a node of the tree, seen from its zipper. */
    method NodePrev(node: RbNode, ghost p: Path, ghost t: Tree) returns (res: RbNode)
      requires RepAt(Snap(repr), head, p, t) && t.Node? && t.node == node
      ensures res == Last(Before(p) + Inorder(t.left), head)
    {
      Down(repr, head, p, t);
      if node.left == head {
        ghost var q, u := p, t;
        res := node;
        var parent := res.parent;
        Upwards(repr, head, q, u);
        while parent != head && res == parent.left
          invariant RepAt(Snap(repr), head, q, u) && u.Node? && res == u.node && parent == Up(q, head)
          invariant Before(q) == Before(p)
          decreases Length(q)
        {
          Upwards(repr, head, q, u);
          res := parent;
          q, u := q.up, Join(q, u);
          parent := res.parent;
          Upwards(repr, head, q, u);
        }
        Upwards(repr, head, q, u);
        if res != head {
          res := parent;
        }
      } else {
        res := NodeMax(node.left, GoLeft(p, t), t.left);
        RightmostIsLast(GoLeft(p, t), t.left);
      }
    }

    /** rb_next: the node at the next place, and the sentinel after the last one. */
    method Next(node: RbNode, ghost i: nat) returns (res: RbNode, ghost steps: nat)
      requires Valid() && i < |Elements()| && Elements()[i] == node
      ensures res == At(Elements(), i + 1, head)
      ensures |Costs(Top, tree)| == |Elements()| && steps == Costs(Top, tree)[i]
    {
      ghost var p, t := Located(node, i);
      res, steps := NodeNext(node, p, t);
      Placed(p, t);
      CostAt(p, t, i);
      TourCost(Top, tree);
    }

    /** rb_prev: the node at the place before; from the sentinel, the last node. */
    method Prev(node: RbNode, ghost i: nat) returns (res: RbNode)
      requires Valid() && i <= |Elements()| && node == At(Elements(), i, head)
      ensures res == if i == 0 then head else Elements()[i - 1]
    {
      InorderNodes(tree);
      if node == head {
        res := node.right;
      } else {
        ghost var p, t := Located(node, i);
        res := NodePrev(node, p, t);
        Placed(p, t);
      }
    }

    /** The zipper of the node at place `i`. */
    lemma Located(node: RbNode, i: nat) returns (p: Path, t: Tree)
      requires Valid() && i < |Elements()| && Elements()[i] == node
      ensures Here(p, t) && t.Node? && t.node == node && Place(p, t) == i && node != head && node in repr
      ensures (p, t) == Locate(Top, tree, node)
    {
      InorderNodes(tree);
      p, t := Locate(Top, tree, node).0, Locate(Top, tree, node).1;
      ZipTop(Snap(repr), head, p, t);
      Placed(p, t);
      DistinctNoDup(tree);
    }

    // -------------------------------------------------------------------------------------
    // Bounds

    /** The zipper is on the way to the lower bound of `val`, or to the upper bound. */
    ghost predicate LowerHere(p: Path, t: Tree, val: RbNode)
      reads this, repr
    {
      && Here(p, t) && |After(p)| <= |Elements()|
      && LowerWithin(Elements(), comp, val, |Before(p)|, |Elements()| - |After(p)|)
    }

    ghost predicate UpperHere(p: Path, t: Tree, val: RbNode)
      reads this, repr
    {
      && Here(p, t) && |After(p)| <= |Elements()|
      && UpperWithin(Elements(), comp, val, |Before(p)|, |Elements()| - |After(p)|)
    }

    lemma SearchStart(val: RbNode)
      requires Valid()
      ensures LowerHere(Top, tree, val) && UpperHere(Top, tree, val)
      ensures head.parent == Root(tree, head) && First(After(Top), head) == head
    {
      RootLink(repr, head, tree);
    }

    lemma SearchStep(p: Path, t: Tree)
      requires Valid() && Here(p, t) && Root(t, head) != head
      ensures t.Node? && t.node.left == Root(t.left, head) && t.node.right == Root(t.right, head)
      ensures Here(GoLeft(p, t), t.left) && Here(GoRight(p, t), t.right)
      ensures Place(p, t) < |Elements()| && Elements()[Place(p, t)] == t.node
      ensures |Before(GoLeft(p, t))| == |Before(p)| && |Before(GoRight(p, t))| == Place(p, t) + 1
      ensures |After(GoRight(p, t))| == |After(p)| && |After(GoLeft(p, t))| == |Elements()| - Place(p, t)
      ensures First(After(GoLeft(p, t)), head) == t.node && First(After(GoRight(p, t)), head) == First(After(p), head)
      ensures t.node != head
    {
      Down(repr, head, p, t);
      Placed(p, t);
    }

    lemma LowerStep(p: Path, t: Tree, val: RbNode)
      requires Valid() && LowerHere(p, t, val) && t.Node?
      ensures if Less(comp, t.node, val) then LowerHere(GoRight(p, t), t.right, val)
        else LowerHere(GoLeft(p, t), t.left, val)
    {
      NilRoot(Snap(repr), head, p, t);
      SearchStep(p, t);
      NarrowLower(Elements(), comp, multi, val, |Before(p)|, |Elements()| - |After(p)|, Place(p, t));
    }

    lemma UpperStep(p: Path, t: Tree, val: RbNode)
      requires Valid() && UpperHere(p, t, val) && t.Node?
      ensures if Less(comp, val, t.node) then UpperHere(GoLeft(p, t), t.left, val)
        else UpperHere(GoRight(p, t), t.right, val)
    {
      NilRoot(Snap(repr), head, p, t);
      SearchStep(p, t);
      NarrowUpper(Elements(), comp, multi, val, |Before(p)|, |Elements()| - |After(p)|, Place(p, t));
    }

    /** The first node on the way that is greater than `val` is where the upper bound may be sought. */
    lemma UpperFromLower(p: Path, t: Tree, val: RbNode)
      requires Valid() && LowerHere(p, t, val) && t.Node? && Less(comp, val, t.node)
      ensures UpperHere(GoLeft(p, t), t.left, val)
    {
      NilRoot(Snap(repr), head, p, t);
      SearchStep(p, t);
      NarrowUpper(Elements(), comp, multi, val, 0, |Elements()|, Place(p, t));
    }

    lemma SearchEnd(p: Path, t: Tree, val: RbNode, res: RbNode) returns (i: nat)
      requires Valid() && Here(p, t) && Root(t, head) == head && res == First(After(p), head)
      ensures res == At(Elements(), i, head)
      ensures LowerHere(p, t, val) ==> IsLower(Elements(), comp, val, i)
      ensures UpperHere(p, t, val) ==> IsUpper(Elements(), comp, val, i)
      ensures Pow2((Length(p) + 1) / 2) <= size + 1
    {
      hide Shaped; hide Sorted; hide StrictWeakOrder; hide RepAt; hide Height;
      i := |Before(p)|;
      InorderPlug(p, t);
      NilRoot(Snap(repr), head, p, t);
      SearchDepth(p, t);
    }

    lemma SearchDepth(p: Path, t: Tree)
      requires Valid() && Here(p, t)
      ensures Pow2((Length(p) + 1) / 2) <= size + 1
    {
      PathWithinHeight(p, t);
      LogarithmicHeight(tree);
      Pow2Monotone((Length(p) + 1) / 2, (Height(tree) + 1) / 2);
    }

    /** impl_lbnd.  The number of steps is bounded by the height, hence by 2 log2(size + 1). */
    method LowerBound(val: RbNode) returns (parent: RbNode, ghost i: nat, ghost steps: nat)
      requires Valid()
      ensures IsLower(Elements(), comp, val, i) && parent == At(Elements(), i, head)
      ensures exists k: nat :: IsLower(Elements(), comp, val, k) && parent == At(Elements(), k, head)
      ensures Pow2((steps + 1) / 2) <= size + 1
    {
      hide Valid; hide LowerHere; hide Here; hide First; hide Before; hide Inorder;
      ghost var p, t := Top, tree;
      parent, steps := head, 0;
      SearchStart(val);
      var node := head.parent;
      while node != head
        invariant Here(p, t) && LowerHere(p, t, val) && node == Root(t, head) && parent == First(After(p), head)
        invariant steps == Length(p)
        decreases t
      {
        SearchStep(p, t);
        LowerStep(p, t, val);
        if Less(comp, node, val) {
          node := node.right;
          p, t := GoRight(p, t), t.right;
        } else {
          parent := node;
          node := node.left;
          p, t := GoLeft(p, t), t.left;
        }
        steps := steps + 1;
      }
      i := SearchEnd(p, t, val, parent);
    }

    /** impl_ubnd */
    method UpperBound(val: RbNode) returns (parent: RbNode, ghost i: nat, ghost steps: nat)
      requires Valid()
      ensures IsUpper(Elements(), comp, val, i) && parent == At(Elements(), i, head)
      ensures exists k: nat :: IsUpper(Elements(), comp, val, k) && parent == At(Elements(), k, head)
      ensures Pow2((steps + 1) / 2) <= size + 1
    {
      hide Valid; hide UpperHere; hide Here; hide First; hide Before; hide Inorder;
      ghost var p, t := Top, tree;
      parent, steps := head, 0;
      SearchStart(val);
      var node := head.parent;
      while node != head
        invariant Here(p, t) && UpperHere(p, t, val) && node == Root(t, head) && parent == First(After(p), head)
        invariant steps == Length(p)
        decreases t
      {
        SearchStep(p, t);
        UpperStep(p, t, val);
        if Less(comp, val, node) {
          parent := node;
          node := node.left;
          p, t := GoLeft(p, t), t.left;
        } else {
          node := node.right;
          p, t := GoRight(p, t), t.right;
        }
        steps := steps + 1;
      }
      i := SearchEnd(p, t, val, parent);
    }

    /** impl_eqrange: one descent for the lower bound that notes where the upper bound may still
        be, and a second one from there. */
    method EqualRange(val: RbNode) returns (begin: RbNode, end: RbNode, ghost i: nat, ghost j: nat)
      requires Valid()
      ensures IsLower(Elements(), comp, val, i) && begin == At(Elements(), i, head)
      ensures IsUpper(Elements(), comp, val, j) && end == At(Elements(), j, head)
      ensures exists k: nat :: IsLower(Elements(), comp, val, k) && begin == At(Elements(), k, head)
      ensures exists k: nat :: IsUpper(Elements(), comp, val, k) && end == At(Elements(), k, head)
    {
      hide Valid; hide UpperHere; hide LowerHere; hide Here; hide First; hide Before; hide Inorder; hide After;
      ghost var p, t := Top, tree;
      ghost var q, u := Top, tree;
      begin, end := head, head;
      SearchStart(val);
      var node := head.parent;
      while node != head
        invariant Here(p, t) && LowerHere(p, t, val) && node == Root(t, head) && begin == First(After(p), head)
        invariant Here(q, u) && UpperHere(q, u, val) && end == First(After(q), head)
        invariant if end == head then q == Top && u == tree else end.left == Root(u, head)
        decreases t
      {
        SearchStep(p, t);
        LowerStep(p, t, val);
        if Less(comp, node, val) {
          node := node.right;
          p, t := GoRight(p, t), t.right;
        } else {
          if end == head && Less(comp, val, node) {
            UpperFromLower(p, t, val);
            end := node;
            q, u := GoLeft(p, t), t.left;
          }
          begin := node;
          node := node.left;
          p, t := GoLeft(p, t), t.left;
        }
      }
      i := SearchEnd(p, t, val, begin);
      node := if end == head then head.parent else end.left;
      while node != head
        invariant Here(q, u) && UpperHere(q, u, val) && node == Root(u, head) && end == First(After(q), head)
        decreases u
      {
        SearchStep(q, u);
        UpperStep(q, u, val);
        if Less(comp, val, node) {
          end := node;
          node := node.left;
          q, u := GoLeft(q, u), u.left;
        } else {
          node := node.right;
          q, u := GoRight(q, u), u.right;
        }
      }
      j := SearchEnd(q, u, val, end);
    }

    /** rb_find */
    method Find(val: RbNode) returns (res: RbNode)
      requires Valid()
      ensures res != head ==> exists k :: 0 <= k < |Elements()| && Elements()[k] == res && Equivalent(comp, res, val)
      ensures res == head ==> forall k :: 0 <= k < |Elements()| ==> !Equivalent(comp, Elements()[k], val)
    {
      var fr, i, _ := LowerBound(val);
      InorderNodes(tree);
      if fr == head || Less(comp, val, fr) {
        res := head;
        if fr != head {
          NarrowUpper(Elements(), comp, multi, val, 0, |Elements()|, i);
        }
      } else {
        res := fr;
      }
    }

    // -------------------------------------------------------------------------------------
    // Rotations

    /** The link to `node` in its parent, or the root link, becomes a link to `by`. */
    method Relink(node: RbNode, heir: RbNode, ghost p: Path)
      requires p.Top? <==> head.parent == node
      requires p.Top? <==> Up(p, head) == head
      requires p.Step? ==> node.parent == p.node && (p.isLeft <==> p.node.left == node)
      modifies Up(p, head)
      ensures Is(Up(p, head), old(SlotCell(Now(Up(p, head)), p, heir)))
      ensures head.left == old(head.left) && head.right == old(head.right)
    {
      if node == head.parent {
        head.parent := heir;
      } else if node == node.parent.left {
        node.parent.left := heir;
      } else {
        node.parent.right := heir;
      }
    }

    method RotateLeft(node: RbNode, ghost p: Path, ghost t: Tree)
      requires RepAt(Snap(repr), head, p, t) && t.Node? && t.node == node && t.right.Node?
      modifies repr
      ensures RepAt(Snap(repr), head, p, RotatedLeft(t))
      ensures head.left == old(head.left) && head.right == old(head.right)
    {
      hide RepAt; hide Snap; hide SlotCell;
      ghost var m := Snap(repr);
      Links(repr, head, p, t, t.right);
      var root := node.right;
      node.right := root.left;
      if root.left != head {
        root.left.parent := node;
      }
      root.parent := node.parent;
      Relink(node, root, p);
      root.left := node;
      node.parent := root;
      LeftRotation(m, repr, head, p, t);
    }

    method RotateRight(node: RbNode, ghost p: Path, ghost t: Tree)
      requires RepAt(Snap(repr), head, p, t) && t.Node? && t.node == node && t.left.Node?
      modifies repr
      ensures RepAt(Snap(repr), head, p, RotatedRight(t))
      ensures head.left == old(head.left) && head.right == old(head.right)
    {
      hide RepAt; hide Snap; hide SlotCell;
      ghost var m := Snap(repr);
      Links(repr, head, p, t, t.left);
      var root := node.left;
      node.left := root.right;
      if root.right != head {
        root.right.parent := node;
      }
      root.parent := node.parent;
      Relink(node, root, p);
      root.right := node;
      node.parent := root;
      RightRotation(m, repr, head, p, t);
    }

    // -------------------------------------------------------------------------------------
    // Colour stores, at the focus, above it and beside it

    method Paint(n: RbNode, c: Color, ghost p: Path, ghost t: Tree)
      requires RepAt(Snap(repr), head, p, t) && t.Node? && t.node == n
      modifies repr
      ensures RepAt(Snap(repr), head, p, t.(color := c))
      ensures head.left == old(head.left) && head.right == old(head.right)
    {
      ghost var m := Snap(repr);
      assert n in m;
      n.color := c;
      Recolored(m, Snap(repr), head, p, t, c);
    }

    method PaintUp(n: RbNode, c: Color, ghost p: Path, ghost t: Tree)
      requires RepAt(Snap(repr), head, p, t) && p.Step? && p.node == n
      modifies repr
      ensures RepAt(Snap(repr), head, p.(color := c), t)
      ensures head.left == old(head.left) && head.right == old(head.right)
    {
      ZipUp(Snap(repr), head, p, t);
      Paint(n, c, p.up, Join(p, t));
      ZipUp(Snap(repr), head, p.(color := c), t);
    }

    method PaintSibling(n: RbNode, c: Color, ghost p: Path, ghost t: Tree)
      requires RepAt(Snap(repr), head, p, t) && p.Step? && p.sibling.Node? && p.sibling.node == n
      modifies repr
      ensures RepAt(Snap(repr), head, p.(sibling := p.sibling.(color := c)), t)
      ensures head.left == old(head.left) && head.right == old(head.right)
    {
      ghost var q, s := Turned(p, t), p.sibling.(color := c);
      Turn(Snap(repr), head, p, t);
      Paint(n, c, q, p.sibling);
      Turn(Snap(repr), head, q, s);
    }

    // -------------------------------------------------------------------------------------
    // Insertion

    /** Parent and uncle are both red: recolour and go on at the grandparent. */
    method Promote(node: RbNode, pos: RbNode, ghost p: Path, ghost t: Tree) returns (pnode: RbNode)
      requires RepAt(Snap(repr), head, p, t) && t.Node? && t.node == node
      requires p.Step? && p.up.Step? && p.up.sibling.Node? && pos == p.up.sibling.node
      modifies repr
      ensures RepAt(Snap(repr), head, p.up.up, Promoted(p, t)) && pnode == Promoted(p, t).node
      ensures head.left == old(head.left) && head.right == old(head.right)
    {
      hide RepAt; hide Snap;
      ghost var up1 := p.up.(sibling := p.up.sibling.(color := Black));
      ghost var up2 := up1.(color := Red);
      ghost var p1 := p.(color := Black, up := up1);
      ghost var p2 := p.(color := Black, up := up2);
      ghost var j := Join(p1, t);
      Kin(repr, head, p, t);
      PaintUp(node.parent, Black, p, t);
      ZipUp(Snap(repr), head, p.(color := Black), t);
      PaintSibling(pos, Black, p.up, j);
      Kin(repr, head, up1, j);
      ZipUp(Snap(repr), head, p1, t);
      Kin(repr, head, p1, t);
      PaintUp(node.parent.parent, Red, up1, j);
      Kin(repr, head, up2, j);
      ZipUp(Snap(repr), head, p2, t);
      Kin(repr, head, p2, t);
      pnode := node.parent.parent;
      ZipUp(Snap(repr), head, up2, j);
    }

    /** The uncle is black and the focus is an outer grandchild. */
    method MendOuterLeft(pnode: RbNode, ghost p: Path, ghost t: Tree)
      requires RepAt(Snap(repr), head, p, t) && OneRedRed(p, t) && t.node == pnode
      requires p.Step? && p.color.Red? && p.isLeft && p.up.isLeft && !IsRed(p.up.sibling)
      modifies repr
      ensures RepAt(Snap(repr), head, Outer(p), t)
      ensures head.left == old(head.left) && head.right == old(head.right)
    {
      MendOuter(p, t);
      hide RepAt; hide Snap; hide OneRedRed; hide RedBlack; hide BlackHeight;
      ghost var p1, up1 := p.(color := Black), p.up.(color := Red);
      ghost var p2 := p1.(up := up1);
      ghost var j := Join(p1, t);
      Kin(repr, head, p, t);
      PaintUp(pnode.parent, Black, p, t);
      ZipUp(Snap(repr), head, p1, t);
      Kin(repr, head, p1, t);
      Kin(repr, head, p.up, j);
      PaintUp(pnode.parent.parent, Red, p.up, j);
      ZipUp(Snap(repr), head, p2, t);
      Kin(repr, head, p2, t);
      Kin(repr, head, up1, j);
      ZipUp(Snap(repr), head, up1, j);
      RotateRight(pnode.parent.parent, p.up.up, Join(up1, j));
      ZipUp(Snap(repr), head, Outer(p), t);
    }

    /** One round of the loop, with the parent a left child. */
    method FixInsertLeft(node: RbNode, ghost p: Path, ghost t: Tree)
              returns (pnode: RbNode, ghost q: Path, ghost u: Tree)
      requires RepAt(Snap(repr), head, p, t) && OneRedRed(p, t) && t.node == node
      requires p.Step? && p.color.Red? && p.up.Step? && p.up.isLeft
      modifies repr
      ensures RepAt(Snap(repr), head, q, u) && OneRedRed(q, u) && u.node == pnode
      ensures Inorder(Plug(q, u)) == Inorder(Plug(p, t)) && Length(q) < Length(p)
      ensures head.left == old(head.left) && head.right == old(head.right)
    {
      hide RepAt; hide RedBlack; hide BlackHeight; hide Snap; hide Inorder; hide Plug; hide Length;
      Kin(repr, head, p, t);
      ZipUp(Snap(repr), head, p, t);
      Kin(repr, head, p.up, Join(p, t));
      var pos := node.parent.parent.right;
      if pos.color == Red {
        PromotedBalance(p, t);
        pnode := Promote(node, pos, p, t);
        q, u := p.up.up, Promoted(p, t);
      } else {
        pnode, q, u := node, p, t;
        if pnode == pnode.parent.right {
          Straighten(p, t);
          pnode := pnode.parent;
          RotateLeft(pnode, p.up, Join(p, t));
          q, u := Straight(p, t).0, Straight(p, t).1;
          ZipUp(Snap(repr), head, q, u);
        }
        MendOuter(q, u);
        MendOuterLeft(pnode, q, u);
        q := Outer(q);
      }
    }

    /** The uncle is black and the focus is an outer grandchild. */
    method MendOuterRight(pnode: RbNode, ghost p: Path, ghost t: Tree)
      requires RepAt(Snap(repr), head, p, t) && OneRedRed(p, t) && t.node == pnode
      requires p.Step? && p.color.Red? && !p.isLeft && !p.up.isLeft && !IsRed(p.up.sibling)
      modifies repr
      ensures RepAt(Snap(repr), head, Outer(p), t)
      ensures head.left == old(head.left) && head.right == old(head.right)
    {
      MendOuter(p, t);
      hide RepAt; hide Snap; hide OneRedRed; hide RedBlack; hide BlackHeight;
      ghost var p1, up1 := p.(color := Black), p.up.(color := Red);
      ghost var p2 := p1.(up := up1);
      ghost var j := Join(p1, t);
      Kin(repr, head, p, t);
      PaintUp(pnode.parent, Black, p, t);
      ZipUp(Snap(repr), head, p1, t);
      Kin(repr, head, p1, t);
      Kin(repr, head, p.up, j);
      PaintUp(pnode.parent.parent, Red, p.up, j);
      ZipUp(Snap(repr), head, p2, t);
      Kin(repr, head, p2, t);
      Kin(repr, head, up1, j);
      ZipUp(Snap(repr), head, up1, j);
      RotateLeft(pnode.parent.parent, p.up.up, Join(up1, j));
      ZipUp(Snap(repr), head, Outer(p), t);
    }

    /** One round of the loop, with the parent a right child. */
    method FixInsertRight(node: RbNode, ghost p: Path, ghost t: Tree)
              returns (pnode: RbNode, ghost q: Path, ghost u: Tree)
      requires RepAt(Snap(repr), head, p, t) && OneRedRed(p, t) && t.node == node
      requires p.Step? && p.color.Red? && p.up.Step? && !p.up.isLeft
      modifies repr
      ensures RepAt(Snap(repr), head, q, u) && OneRedRed(q, u) && u.node == pnode
      ensures Inorder(Plug(q, u)) == Inorder(Plug(p, t)) && Length(q) < Length(p)
      ensures head.left == old(head.left) && head.right == old(head.right)
    {
      hide RepAt; hide RedBlack; hide BlackHeight; hide Snap; hide Inorder; hide Plug; hide Length;
      Kin(repr, head, p, t);
      ZipUp(Snap(repr), head, p, t);
      Kin(repr, head, p.up, Join(p, t));
      var pos := node.parent.parent.left;
      if pos.color == Red {
        PromotedBalance(p, t);
        pnode := Promote(node, pos, p, t);
        q, u := p.up.up, Promoted(p, t);
      } else {
        pnode, q, u := node, p, t;
        if pnode == pnode.parent.left {
          Straighten(p, t);
          pnode := pnode.parent;
          RotateRight(pnode, p.up, Join(p, t));
          q, u := Straight(p, t).0, Straight(p, t).1;
          ZipUp(Snap(repr), head, q, u);
        }
        MendOuter(q, u);
        MendOuterRight(pnode, q, u);
        q := Outer(q);
      }
    }

    /** impl_node_insert, the loop, the final store to the root's colour and the new size. */
    method FixInsert(node: RbNode, ghost p: Path, ghost t: Tree)
      requires RepAt(Snap(repr), head, p, t) && OneRedRed(p, t) && t.node == node
      requires repr == {head} + Nodes(Plug(p, t)) && size + 1 == |Inorder(Plug(p, t))|
      requires head.left == First(Inorder(Plug(p, t)), head) && head.right == Last(Inorder(Plug(p, t)), head)
      modifies repr, `tree, `size
      ensures Shaped() && Elements() == Inorder(Plug(p, t))
    {
      hide RepAt; hide RedBlack; hide BlackHeight; hide Snap; hide Inorder; hide Plug; hide Length; hide PathRedBlack;
      hide First; hide Last; hide Nodes;
      var pnode := node;
      ghost var q, u := p, t;
      Kin(repr, head, q, u);
      while pnode.parent.color == Red
        invariant RepAt(Snap(repr), head, q, u) && OneRedRed(q, u) && u.node == pnode
        invariant Inorder(Plug(q, u)) == Inorder(Plug(p, t))
        invariant size == old(size) && head.left == old(head.left) && head.right == old(head.right)
        decreases Length(q)
      {
        Kin(repr, head, q, u);
        ZipUp(Snap(repr), head, q, u);
        Kin(repr, head, q.up, Join(q, u));
        RedParent(q, u);
        if pnode.parent == pnode.parent.parent.left {
          pnode, q, u := FixInsertLeft(pnode, q, u);
        } else {
          pnode, q, u := FixInsertRight(pnode, q, u);
        }
      }
      Kin(repr, head, q, u);
      tree := Plug(q, u);
      ZipTop(Snap(repr), head, q, u);
      InsertDone(q, u);
      RootLink(repr, head, tree);
      Paint(head.parent, Black, Top, tree);
      tree, size := tree.(color := Black), size + 1;
      SameNodes(tree, Plug(p, t));
      IsShaped();
    }

    /** impl_node_insert, the links: `node` becomes a child of `pos`, or the root. */
    method Link(node: RbNode, pos: RbNode, addleft: bool, ghost p: Path)
      requires RepAt(Snap(repr), head, p, Leaf) && repr == {head} + PathNodes(p)
      requires pos == Up(p, head) && (p.Step? ==> addleft == p.isLeft)
      requires node !in repr && node.left == node.right == head && node.color == Red
      requires head.left == First(Before(p) + After(p), head) && head.right == Last(Before(p) + After(p), head)
      requires NoDup(Before(p) + After(p))
      modifies repr, node, `repr
      ensures repr == old(repr) + {node}
      ensures RepAt(Snap(repr), head, p, Node(Leaf, node, Red, Leaf))
      ensures var xs := Before(p) + [node] + After(p); head.left == First(xs, head) && head.right == Last(xs, head)
    {
      hide RepAt; hide NoDup; hide Before; hide After; hide PathNodes;
      ghost var m := Snap(repr);
      Kin(repr, head, p, Leaf);
      HeadApart(repr, head, p, Leaf);
      LinkEnds(head, p);
      Hang(node, pos, addleft);
      repr := repr + {node};
      Linked(m, Snap(repr), head, p, node);
    }

    /** The stores of impl_node_insert: the node under its parent, and the ends in the sentinel. */
    method Hang(node: RbNode, pos: RbNode, addleft: bool)
      requires node != pos && node != head
      modifies node, pos, head
      ensures node.parent == pos && node.left == old(node.left) && node.right == old(node.right) &&
        node.color == old(node.color)
      ensures pos == head ==> head.parent == head.left == head.right == node
      ensures pos != head ==>
        && pos.left == (if addleft then node else old(pos.left)) &&
          pos.right == (if addleft then old(pos.right) else node)
        && pos.parent == old(pos.parent) && pos.color == old(pos.color)
        && head.parent == old(head.parent)
        && head.left == (if addleft && pos == old(head.left) then node else old(head.left))
        && head.right == (if !addleft && pos == old(head.right) then node else old(head.right))
      ensures head.color == old(head.color)
    {
      node.parent := pos;
      if pos == head {
        head.parent := node;
        head.left := node;
        head.right := node;
      } else if addleft {
        pos.left := node;
        if pos == head.left {
          head.left := node;
        }
      } else {
        pos.right := node;
        if pos == head.right {
          head.right := node;
        }
      }
    }

    /** impl_node_insert */
    method NodeInsert(node: RbNode, pos: RbNode, addleft: bool, ghost p: Path)
      requires Shaped() && Here(p, Leaf) && Balanced(p, Leaf)
      requires pos == Up(p, head) && (p.Step? ==> addleft == p.isLeft)
      requires node !in repr && node.left == node.right == head && node.color == Red
      modifies repr, node, `repr, `tree, `size
      ensures Shaped() && repr == old(repr) + {node}
      ensures Elements() == Before(p) + [node] + After(p)
    {
      ReadyToLink(p, node);
      hide Shaped; hide Here; hide Balanced; hide OneRedRed; hide RepAt; hide Snap; hide NoDup; hide First; hide Last;
      hide Inorder; hide Before; hide After; hide Plug; hide Nodes; hide PathNodes;
      ghost var t := Node(Leaf, node, Red, Leaf);
      Link(node, pos, addleft, p);
      FixInsert(node, p, t);
    }

    lemma ReadyToLink(p: Path, node: RbNode)
      requires Shaped() && Here(p, Leaf) && Balanced(p, Leaf) && node !in repr
      ensures RepAt(Snap(repr), head, p, Leaf) && repr == {head} + PathNodes(p)
      ensures head.left == First(Before(p) + After(p), head) && head.right == Last(Before(p) + After(p), head)
      ensures NoDup(Before(p) + After(p)) && size + 1 == |Before(p) + [node] + After(p)|
      ensures var t := Node(Leaf, node, Red, Leaf);
        && OneRedRed(p, t) && Inorder(Plug(p, t)) == Before(p) + [node] + After(p)
        && Nodes(Plug(p, t)) == PathNodes(p) + {node}
    {
      PlugLeaf(p);
      DistinctNoDup(tree);
      NewLeaf(p, node);
      PlugOne(p, node, Red);
    }

    lemma IsShaped()
      requires repr == {head} + Nodes(tree)
      requires RepAt(Snap(repr), head, Top, tree) && RedBlack(tree) && !IsRed(tree)
      requires head.left == First(Inorder(tree), head) && head.right == Last(Inorder(tree), head)
      requires size == |Inorder(tree)|
      ensures Shaped()
    {
    }

    /** rb_insert_node, the descent: the free place after all nodes that are not greater. */
    method FindPlace(node: RbNode) returns (position: RbNode, addleft: bool, ghost p: Path)
      requires Valid()
      ensures Here(p, Leaf) && UpperHere(p, Leaf, node) && Balanced(p, Leaf)
      ensures position == Up(p, head) && (if p.Step? then addleft == p.isLeft else addleft)
    {
      SearchStart(node);
      hide Valid; hide UpperHere; hide Here; hide Balanced; hide Before; hide After; hide First;
      ghost var t := tree;
      p := Top;
      position, addleft := head, true;
      var res := position.parent;
      BalancedTop(tree);
      while res != head
        invariant Here(p, t) && UpperHere(p, t, node) && Balanced(p, t)
        invariant res == Root(t, head) && position == Up(p, head) && (if p.Step? then addleft == p.isLeft else addleft)
        decreases t
      {
        SearchStep(p, t);
        UpperStep(p, t, node);
        BalancedDown(p, t);
        position := res;
        addleft := Less(comp, node, res);
        if addleft {
          res := res.left;
          p, t := GoLeft(p, t), t.left;
        } else {
          res := res.right;
          p, t := GoRight(p, t), t.right;
        }
      }
      NilHere(p, t);
    }

    lemma NilHere(p: Path, t: Tree)
      requires Here(p, t) && Root(t, head) == head
      ensures t == Leaf
    {
      NilRoot(Snap(repr), head, p, t);
    }

    lemma BalancedTop(t: Tree)
      requires Valid() && t == tree
      ensures Balanced(Top, t)
    {
    }

    /** Where the free place is: its in-order neighbours. */
    lemma FreePlace(p: Path, val: RbNode)
      requires Valid() && UpperHere(p, Leaf, val)
      ensures IsUpper(Elements(), comp, val, |Before(p)|)
      ensures Elements()[..|Before(p)|] == Before(p) && Elements()[|Before(p)|..] == After(p)
      ensures p.Step? && !p.isLeft ==> Before(p) != [] && Last(Before(p), head) == p.node
      ensures p.Step? ==> p.node != head && p.node in repr && RepAt(Snap(repr), head, p.up, Join(p, Leaf))
      ensures p.Top? || p.isLeft ==> (Up(p, head) == head.left <==> Before(p) == [])
    {
      InorderPlug(p, Leaf);
      Kin(repr, head, p, Leaf);
      DistinctNoDup(tree);
      if p.Step? {
        ZipUp(Snap(repr), head, p, Leaf);
        assert p.isLeft ==> Elements()[|Before(p)|] == p.node;
      }
    }

    /** What the place found means for the insertion: what is before it, and when it may be used. */
    lemma InsertPlan(p: Path, node: RbNode, i: nat)
      requires Valid() && UpperHere(p, Leaf, node) && i == |Before(p)|
      ensures Shaped() && StrictWeakOrder(comp) && Here(p, Leaf)
      ensures i <= |Elements()| && IsUpper(Elements(), comp, node, i)
      ensures Before(p) + [node] + After(p) == Elements()[..i] + [node] + Elements()[i..]
      ensures var free := multi || forall k :: 0 <= k < |Elements()| ==> !Equivalent(comp, Elements()[k], node);
        && (free ==> Sorted(Elements()[..i] + [node] + Elements()[i..], comp, multi))
        && (!multi && i == 0 ==> free)
        && (!multi && i > 0 ==> (free <==> Less(comp, Elements()[i - 1], node)))
        && (!multi && i > 0 && !Less(comp, Elements()[i - 1], node) ==> Equivalent(comp, Elements()[i - 1], node))
      ensures p.Step? && !p.isLeft ==> i > 0 && p.node == Elements()[i - 1]
      ensures p.Top? || p.isLeft ==> (Up(p, head) == head.left <==> i == 0)
      ensures p.Step? && p.isLeft ==>
        && RepAt(Snap(repr), head, p.up, Join(p, Leaf)) && Join(p, Leaf).Node? && Join(p, Leaf).node == p.node
        && (i > 0 ==> Last(Before(p.up) + Inorder(Join(p, Leaf).left), head) == Elements()[i - 1])
      ensures p.Top? ==> i == 0
    {
      FreePlace(p, node);
      hide Shaped;
      InsertAtUpper(Elements(), comp, multi, node, i);
      assert p.Step? && p.isLeft ==> Before(p.up) + Inorder(Leaf) == Before(p);
    }

    /** rb_insert_node: the new node goes after all its equals; a tree without repetitions refuses
        it if there is an equal, and returns that. */
    method InsertNode(node: RbNode) returns (res: RbNode, out: bool, ghost i: nat)
      requires Valid() && node !in repr && node.left == node.right == head && node.color == Red
      modifies this, repr, node
      ensures Valid() && IsUpper(old(Elements()), comp, node, i)
      ensures out <==> multi || forall k :: 0 <= k < |old(Elements())| ==> !Equivalent(comp, old(Elements())[k], node)
      ensures out ==> Elements() == old(Elements())[..i] + [node] + old(Elements())[i..]
      ensures out ==> res == node && repr == old(repr) + {node}
      ensures !out ==> tree == old(tree) && size == old(size) && repr == old(repr) && Snap(repr) == old(Snap(repr))
      ensures !out ==> i > 0 && res == old(Elements())[i - 1] && Equivalent(comp, res, node)
    {
      hide Shaped; hide StrictWeakOrder; hide Sorted; hide Before; hide After; hide IsUpper; hide Balanced;
      hide UpperHere; hide Inorder; hide RepAt; hide Plug; hide Snap; hide Last; hide Equivalent;
      ghost var p;
      var position, addleft;
      position, addleft, p := FindPlace(node);
      i := |Before(p)|;
      InsertPlan(p, node, i);
      if multi {
        NodeInsert(node, position, addleft, p);
        res, out := node, true;
      } else {
        var pos := position;
        if !addleft {
        } else if pos == head.left {
          NodeInsert(node, position, true, p);
          res, out := node, true;
          return;
        } else {
          pos := NodePrev(pos, p.up, Join(p, Leaf));
        }
        if Less(comp, pos, node) {
          NodeInsert(node, position, addleft, p);
          res, out := node, true;
        } else {
          res, out := pos, false;
        }
      }
    }

    /** rb_insert: node_init, then rb_insert_node. */
    method Insert(node: RbNode) returns (res: RbNode, out: bool, ghost i: nat)
      requires Valid() && node !in repr
      modifies this, repr, node
      ensures Valid() && IsUpper(old(Elements()), comp, node, i)
      ensures out <==> multi || forall k :: 0 <= k < |old(Elements())| ==> !Equivalent(comp, old(Elements())[k], node)
      ensures out ==> Elements() == old(Elements())[..i] + [node] + old(Elements())[i..]
      ensures out ==> res == node && repr == old(repr) + {node}
      ensures !out ==> tree == old(tree) && size == old(size) && repr == old(repr) && Snap(repr) == old(Snap(repr))
      ensures !out ==> i > 0 && res == old(Elements())[i - 1] && Equivalent(comp, res, node)
    {
      hide Valid;
      node.parent, node.left, node.right, node.color := head, head, head, Red;
      res, out, i := InsertNode(node);
    }

    // -------------------------------------------------------------------------------------
    // Erasing: taking the node out

    /** A node with at most one child is taken out; its child `fixnode` gets its place. */
    method SpliceOut(erased: RbNode, fixnode: RbNode, ghost p: Path, ghost t: Tree, ghost f: Tree)
              returns (fixparent: RbNode)
      requires RepAt(Snap(repr), head, p, t) && OnlyChild(t, f) && t.node == erased && fixnode == Root(f, head)
      modifies repr
      ensures RepAt(Snap(repr), head, p, f) && fixparent == Up(p, head) && erased.color == t.color
      ensures head.left == old(head.left) && head.right == old(head.right)
    {
      ghost var m := Snap(repr);
      Upwards(repr, head, p, t);
      Down(repr, head, p, t);
      Kin(repr, head, p, t);
      ChildLinks(repr, head, p, t, f);
      hide RepAt; hide Snap; hide OnlyChild;
      fixparent := erased.parent;
      if fixnode != head {
        fixnode.parent := fixparent;
      }
      Relink(erased, fixnode, p);
      SplicedNow(m, repr, head, p, t, f);
    }

    /** The cached ends after a node with at most one child has been taken out. */
    method MoveFirst(erased: RbNode, fixnode: RbNode, fixparent: RbNode, ghost p: Path, ghost f: Tree)
      requires RepAt(Snap(repr), head, p, f) && fixnode == Root(f, head) && fixparent == Up(p, head)
      modifies head
      ensures RepAt(Snap(repr), head, p, f)
      ensures head.left == if old(head.left) != erased then old(head.left) else if f.Node? then Inorder(f)[0]
        else Up(p, head)
      ensures head.right == old(head.right)
    {
      NilRoot(Snap(repr), head, p, f);
      Kin(repr, head, p, f);
      hide RepAt; hide Snap; hide Inorder;
      ghost var m := Snap(repr);
      if head.left == erased {
        var lmst := fixparent;
        if fixnode != head {
          ghost var s;
          lmst, s := NodeMin(fixnode, p, f);
        }
        head.left := lmst;
        EndsNow(m, repr, head, p, f);
      }
    }

    method MoveLast(erased: RbNode, fixnode: RbNode, fixparent: RbNode, ghost p: Path, ghost f: Tree)
      requires RepAt(Snap(repr), head, p, f) && fixnode == Root(f, head) && fixparent == Up(p, head)
      modifies head
      ensures RepAt(Snap(repr), head, p, f)
      ensures head.right == if old(head.right) != erased then old(head.right) else if f.Node? then
        Inorder(f)[|Inorder(f)| - 1] else Up(p, head)
      ensures head.left == old(head.left)
    {
      NilRoot(Snap(repr), head, p, f);
      Kin(repr, head, p, f);
      hide RepAt; hide Snap; hide Inorder;
      ghost var m := Snap(repr);
      if head.right == erased {
        var rmst := fixparent;
        if fixnode != head {
          rmst := NodeMax(fixnode, p, f);
        }
        head.right := rmst;
        EndsNow(m, repr, head, p, f);
      }
    }

    /** First half of a replacement: the successor `pnode` leaves its place to its right child
        `fixnode` and takes over the children of `erased`. */
    method AdoptChildren(erased: RbNode, pnode: RbNode, fixnode: RbNode,
                         ghost m: Mem, ghost p: Path, ghost t: Tree, ghost pr: Path, ghost y: Tree)
      returns (fixparent: RbNode)
      requires m == Snap(repr) && RepAt(m, head, p, t) && Heir(t, y, pr)
      requires t.node == erased && y.Node? && y.node == pnode && fixnode == Root(y.right, head)
      modifies repr
      ensures {erased, pnode, head, t.left.node, t.right.node, Up(p, head)} <= m.Keys
      ensures (pr.Step? ==> pr.node in m) && (y.right.Node? ==> fixnode in m)
      ensures Is(t.left.node, m[t.left.node].(parent := pnode))
      ensures Is(pnode, m[pnode].(left := t.left.node, right := if pr.Top? then fixnode else t.right.node))
      ensures y.right.Node? ==> Is(fixnode, m[fixnode].(parent := if pr.Top? then pnode else pr.node))
      ensures pr.Step? ==>
        Is(pr.node, m[pr.node].(left := fixnode, parent := if pr.node == t.right.node then pnode
          else m[pr.node].parent))
      ensures pr.Step? && pr.node != t.right.node ==> Is(t.right.node, m[t.right.node].(parent := pnode))
      ensures Kept(m, repr - {pnode, t.left.node, t.right.node, fixnode, if pr.Step? then pr.node else pnode})
      ensures fixparent == (if pr.Step? then pr.node else pnode)
      ensures Is(erased, m[erased]) && Is(head, m[head]) && Is(Up(p, head), m[Up(p, head)])
    {
      hide RepAt; hide Snap; hide Heir; hide HeirPath; hide Plug; hide Up;
      HeirLinks(repr, head, p, t, pr, y);
      erased.left.parent := pnode;
      pnode.left := erased.left;
      if pnode == erased.right {
        fixparent := pnode;
      } else {
        fixparent := LeavePlace(erased, pnode, fixnode);
      }
    }

    /** `pnode`, deeper in the right subtree of `erased`, leaves its place to `fixnode` and gets the right
        subtree. */
    method LeavePlace(erased: RbNode, pnode: RbNode, fixnode: RbNode) returns (fixparent: RbNode)
      requires {pnode, pnode.parent, fixnode, erased.right} <= repr && erased.right != erased
      requires pnode != pnode.parent && pnode != erased.right && pnode != erased && pnode.parent != erased
      requires fixnode != pnode && fixnode != pnode.parent && fixnode != erased.right && fixnode != erased
      modifies pnode, pnode.parent, fixnode, erased.right
      ensures fixparent == old(pnode.parent)
      ensures pnode.right == old(erased.right) && pnode.left == old(pnode.left)
      ensures pnode.parent == old(pnode.parent) && pnode.color == old(pnode.color)
      ensures fixnode.parent == if fixnode == head then old(fixnode.parent) else fixparent
      ensures fixnode.left == old(fixnode.left) && fixnode.right == old(fixnode.right) &&
        fixnode.color == old(fixnode.color)
      ensures fixparent.left == fixnode && fixparent.right == old(fixparent.right) &&
        fixparent.color == old(fixparent.color)
      ensures fixparent.parent == if fixparent == old(erased.right) then pnode else old(fixparent.parent)
      ensures var r := old(erased.right);
        r != fixparent ==>
          r.parent == pnode && r.left == old(r.left) && r.right == old(r.right) &&
          r.color == old(r.color)
    {
      fixparent := pnode.parent;
      if fixnode != head {
        fixnode.parent := fixparent;
      }
      fixparent.left := fixnode;
      pnode.right := erased.right;
      erased.right.parent := pnode;
    }

    /** Second half: `pnode` takes over the parent and the colour of `erased`. */
    method TakePlace(erased: RbNode, pnode: RbNode, ghost p: Path)
      requires pnode != erased && Up(p, head) != pnode && Up(p, head) != erased && pnode != head && erased != head
      requires erased.parent == Up(p, head)
      requires p.Top? <==> head.parent == erased
      requires p.Top? <==> Up(p, head) == head
      requires p.Step? ==> (p.isLeft <==> p.node.left == erased)
      modifies Up(p, head), pnode, erased
      ensures Is(Up(p, head), old(SlotCell(Now(Up(p, head)), p, pnode)))
      ensures Is(pnode, old(Now(pnode)).(parent := Up(p, head), color := old(erased.color)))
      ensures erased.color == old(pnode.color)
      ensures head.left == old(head.left) && head.right == old(head.right)
    {
      Relink(erased, pnode, p);
      pnode.parent := erased.parent;
      pnode.color, erased.color := erased.color, pnode.color;
    }

    /** A node with two children is replaced by its successor `pnode`, whose right child `fixnode`
        goes up; the two swap colours. */
    method Transplant(erased: RbNode, pnode: RbNode, fixnode: RbNode, ghost p: Path, ghost t: Tree, ghost pr: Path,
              ghost y: Tree)
      returns (fixparent: RbNode)
      requires RepAt(Snap(repr), head, p, t) && Heir(t, y, pr)
      requires t.node == erased && y.Node? && y.node == pnode && fixnode == Root(y.right, head)
      modifies repr
      ensures RepAt(Snap(repr), head, HeirPath(p, t), y.right)
      ensures fixparent == Up(HeirPath(p, t), head) && erased.color == y.color
      ensures head.left == old(head.left) && head.right == old(head.right)
    {
      ghost var m := Snap(repr);
      HeirLinks(repr, head, p, t, pr, y);
      hide RepAt; hide Snap; hide Heir; hide HeirPath; hide Plug; hide SlotCell;
      fixparent := AdoptChildren(erased, pnode, fixnode, m, p, t, pr, y);
      TakePlace(erased, pnode, p);
      TransplantedNow(m, repr, head, p, t, pr, y);
      HeirPathEnd(p, t, pr, y);
    }

    // -------------------------------------------------------------------------------------
    // Erasing: restoring the black height

    /** The colour of a child of the sibling. */
    method PaintNephew(n: RbNode, c: Color, ghost p: Path, ghost t: Tree, ghost onLeft: bool)
      requires RepAt(Snap(repr), head, p, t) && p.Step? && p.sibling.Node?
      requires onLeft ==> p.sibling.left.Node? && p.sibling.left.node == n
      requires !onLeft ==> p.sibling.right.Node? && p.sibling.right.node == n
      modifies repr
      ensures onLeft ==> RepAt(Snap(repr), head, p.(sibling := p.sibling.(left := p.sibling.left.(color := c))), t)
      ensures !onLeft ==> RepAt(Snap(repr), head, p.(sibling := p.sibling.(right := p.sibling.right.(color := c))), t)
      ensures head.left == old(head.left) && head.right == old(head.right)
    {
      hide RepAt; hide Snap;
      ghost var q, s := Turned(p, t), p.sibling;
      ghost var u := if onLeft then s.left else s.right;
      ghost var qu := if onLeft then GoLeft(q, s) else GoRight(q, s);
      Turn(Snap(repr), head, p, t);
      Down(repr, head, q, s);
      Paint(n, c, qu, u);
      ZipUp(Snap(repr), head, qu, u.(color := c));
      Turn(Snap(repr), head, q, Join(qu, u.(color := c)));
    }

    /** The sibling is red: rotate it up, so that the sibling becomes a black node. */
    method RotateRedSiblingLeft(pnode: RbNode, fixparent: RbNode, ghost p: Path, ghost f: Tree) returns (res: RbNode)
      requires RepAt(Snap(repr), head, p, f) && p.Step? && p.isLeft && p.sibling.Node? && Near(p).Node?
      requires p.node == fixparent && p.sibling.node == pnode
      requires Join(BlackSibling(p).up, Join(BlackSibling(p), f)) ==
        Rotated(Join(p.(color := Red, sibling := p.sibling.(color := Black)), f), p.isLeft)
      modifies repr
      ensures RepAt(Snap(repr), head, BlackSibling(p), f) && res == BlackSibling(p).sibling.node
      ensures head.left == old(head.left) && head.right == old(head.right)
    {
      hide RepAt; hide Snap;
      ghost var p1 := p.(sibling := p.sibling.(color := Black));
      ghost var p2, q := p1.(color := Red), BlackSibling(p);
      PaintSibling(pnode, Black, p, f);
      PaintUp(fixparent, Red, p1, f);
      ZipUp(Snap(repr), head, p2, f);
      RotateLeft(fixparent, p.up, Join(p2, f));
      ZipUp(Snap(repr), head, q.up, Join(q, f));
      ZipUp(Snap(repr), head, q, f);
      Kin(repr, head, q, f);
      res := fixparent.right;
    }

    /** Only the near child of the black sibling is red: rotate it to the far side. */
    method RotateNephewLeft(pnode: RbNode, fixparent: RbNode, ghost p: Path, ghost f: Tree) returns (res: RbNode)
      requires RepAt(Snap(repr), head, p, f) && p.Step? && p.isLeft && p.sibling.Node? && Near(p).Node?
      requires p.node == fixparent && p.sibling.node == pnode
      modifies repr
      ensures RepAt(Snap(repr), head, FarRed(p), f) && res == FarRed(p).sibling.node
      ensures head.left == old(head.left) && head.right == old(head.right)
    {
      hide RepAt; hide Snap;
      Nephews(repr, head, p, f);
      ghost var p1 := p.(sibling := p.sibling.(left := p.sibling.left.(color := Black)));
      ghost var p2 := p1.(sibling := p1.sibling.(color := Red));
      PaintNephew(pnode.left, Black, p, f, true);
      PaintSibling(pnode, Red, p1, f);
      Turn(Snap(repr), head, p2, f);
      RotateRight(pnode, Turned(p2, f), p2.sibling);
      Turn(Snap(repr), head, FarRed(p), f);
      Kin(repr, head, FarRed(p), f);
      res := fixparent.right;
    }

    /** The far child of the black sibling is red: one rotation makes up for the missing node. */
    method RepayLeft(pnode: RbNode, fixparent: RbNode, ghost p: Path, ghost f: Tree)
      requires RepAt(Snap(repr), head, p, f) && p.Step? && p.isLeft && p.sibling.Node? && Far(p).Node?
      requires p.node == fixparent && p.sibling.node == pnode
      requires Join(Repaid(p).up, Join(Repaid(p), f)) == Rotated(Join(p.(color := Black,
                 sibling := Beside(p.isLeft, Near(p), p.sibling.node, p.color, Blacken(Far(p)))), f), p.isLeft)
      modifies repr
      ensures RepAt(Snap(repr), head, Repaid(p), f)
      ensures head.left == old(head.left) && head.right == old(head.right)
    {
      hide RepAt; hide Snap;
      Kin(repr, head, p, f);
      ghost var p1 := p.(sibling := p.sibling.(color := p.color));
      ghost var p2 := p1.(color := Black);
      ghost var p3, q := p2.(sibling := p2.sibling.(right := p2.sibling.right.(color := Black))), Repaid(p);
      PaintSibling(pnode, fixparent.color, p, f);
      PaintUp(fixparent, Black, p1, f);
      Nephews(repr, head, p2, f);
      PaintNephew(pnode.right, Black, p2, f, false);
      ZipUp(Snap(repr), head, p3, f);
      RotateLeft(fixparent, p.up, Join(p3, f));
      ZipUp(Snap(repr), head, q.up, Join(q, f));
      ZipUp(Snap(repr), head, q, f);
    }

    /** One round of the loop for a left child; `done` says that the loop breaks. */
    method FixEraseLeft(fixnode: RbNode, fixparent: RbNode, ghost p: Path, ghost f: Tree)
      returns (node: RbNode, done: bool, ghost q: Path, ghost g: Tree)
      requires RepAt(Snap(repr), head, p, f) && OneShort(p, f) && !IsRed(f)
      requires p.Step? && p.isLeft && p.node == fixparent && fixnode == Root(f, head)
      modifies repr
      ensures RepAt(Snap(repr), head, q, g) && node == Root(g, head)
      ensures done ==> Mended(q, g)
      ensures !done ==> OneShort(q, g) && g.Node? && (IsRed(g) || Length(q) < Length(p))
      ensures Inorder(Plug(q, g)) == Inorder(Plug(p, f))
      ensures head.left == old(head.left) && head.right == old(head.right)
    {
      HasSibling(p, f);
      hide RepAt; hide Snap; hide OneShort; hide Mended; hide Inorder; hide Plug; hide RedBlack;
      Kin(repr, head, p, f);
      var pnode := fixparent.right;
      q := p;
      if pnode.color == Red {
        RedSiblingCase(p, f);
        pnode := RotateRedSiblingLeft(pnode, fixparent, p, f);
        q := BlackSibling(p);
      }
      Kin(repr, head, q, f);
      Nephews(repr, head, q, f);
      assert pnode != head;
      if pnode.left.color == Black && pnode.right.color == Black {
        PushUp(q, f);
        ghost var q1 := q.(sibling := q.sibling.(color := Red));
        PaintSibling(pnode, Red, q, f);
        ZipUp(Snap(repr), head, q1, f);
        PushedUp(p, q, f);
        node, done, q, g := fixparent, false, q.up, Join(q1, f);
      } else {
        if pnode.right.color == Black {
          NearRedCase(q, f);
          pnode := RotateNephewLeft(pnode, fixparent, q, f);
          q := FarRed(q);
        }
        FarRedCase(q, f);
        RepayLeft(pnode, fixparent, q, f);
        node, done, q, g := fixnode, true, Repaid(q), f;
      }
    }

    /** The sibling is red: rotate it up, so that the sibling becomes a black node. */
    method RotateRedSiblingRight(pnode: RbNode, fixparent: RbNode, ghost p: Path, ghost f: Tree) returns (res: RbNode)
      requires RepAt(Snap(repr), head, p, f) && p.Step? && !p.isLeft && p.sibling.Node? && Near(p).Node?
      requires p.node == fixparent && p.sibling.node == pnode
      requires Join(BlackSibling(p).up, Join(BlackSibling(p), f)) ==
        Rotated(Join(p.(color := Red, sibling := p.sibling.(color := Black)), f), p.isLeft)
      modifies repr
      ensures RepAt(Snap(repr), head, BlackSibling(p), f) && res == BlackSibling(p).sibling.node
      ensures head.left == old(head.left) && head.right == old(head.right)
    {
      hide RepAt; hide Snap;
      ghost var p1 := p.(sibling := p.sibling.(color := Black));
      ghost var p2, q := p1.(color := Red), BlackSibling(p);
      PaintSibling(pnode, Black, p, f);
      PaintUp(fixparent, Red, p1, f);
      ZipUp(Snap(repr), head, p2, f);
      RotateRight(fixparent, p.up, Join(p2, f));
      ZipUp(Snap(repr), head, q.up, Join(q, f));
      ZipUp(Snap(repr), head, q, f);
      Kin(repr, head, q, f);
      res := fixparent.left;
    }

    /** Only the near child of the black sibling is red: rotate it to the far side. */
    method RotateNephewRight(pnode: RbNode, fixparent: RbNode, ghost p: Path, ghost f: Tree) returns (res: RbNode)
      requires RepAt(Snap(repr), head, p, f) && p.Step? && !p.isLeft && p.sibling.Node? && Near(p).Node?
      requires p.node == fixparent && p.sibling.node == pnode
      modifies repr
      ensures RepAt(Snap(repr), head, FarRed(p), f) && res == FarRed(p).sibling.node
      ensures head.left == old(head.left) && head.right == old(head.right)
    {
      hide RepAt; hide Snap;
      Nephews(repr, head, p, f);
      ghost var p1 := p.(sibling := p.sibling.(right := p.sibling.right.(color := Black)));
      ghost var p2 := p1.(sibling := p1.sibling.(color := Red));
      PaintNephew(pnode.right, Black, p, f, false);
      PaintSibling(pnode, Red, p1, f);
      Turn(Snap(repr), head, p2, f);
      RotateLeft(pnode, Turned(p2, f), p2.sibling);
      Turn(Snap(repr), head, FarRed(p), f);
      Kin(repr, head, FarRed(p), f);
      res := fixparent.left;
    }

    /** The far child of the black sibling is red: one rotation makes up for the missing node. */
    method RepayRight(pnode: RbNode, fixparent: RbNode, ghost p: Path, ghost f: Tree)
      requires RepAt(Snap(repr), head, p, f) && p.Step? && !p.isLeft && p.sibling.Node? && Far(p).Node?
      requires p.node == fixparent && p.sibling.node == pnode
      requires Join(Repaid(p).up, Join(Repaid(p), f)) == Rotated(Join(p.(color := Black,
                 sibling := Beside(p.isLeft, Near(p), p.sibling.node, p.color, Blacken(Far(p)))), f), p.isLeft)
      modifies repr
      ensures RepAt(Snap(repr), head, Repaid(p), f)
      ensures head.left == old(head.left) && head.right == old(head.right)
    {
      hide RepAt; hide Snap;
      Kin(repr, head, p, f);
      ghost var p1 := p.(sibling := p.sibling.(color := p.color));
      ghost var p2 := p1.(color := Black);
      ghost var p3, q := p2.(sibling := p2.sibling.(left := p2.sibling.left.(color := Black))), Repaid(p);
      PaintSibling(pnode, fixparent.color, p, f);
      PaintUp(fixparent, Black, p1, f);
      Nephews(repr, head, p2, f);
      PaintNephew(pnode.left, Black, p2, f, true);
      ZipUp(Snap(repr), head, p3, f);
      RotateRight(fixparent, p.up, Join(p3, f));
      ZipUp(Snap(repr), head, q.up, Join(q, f));
      ZipUp(Snap(repr), head, q, f);
    }

    /** One round of the loop for a right child; `done` says that the loop breaks. */
    method FixEraseRight(fixnode: RbNode, fixparent: RbNode, ghost p: Path, ghost f: Tree)
      returns (node: RbNode, done: bool, ghost q: Path, ghost g: Tree)
      requires RepAt(Snap(repr), head, p, f) && OneShort(p, f) && !IsRed(f)
      requires p.Step? && !p.isLeft && p.node == fixparent && fixnode == Root(f, head)
      modifies repr
      ensures RepAt(Snap(repr), head, q, g) && node == Root(g, head)
      ensures done ==> Mended(q, g)
      ensures !done ==> OneShort(q, g) && g.Node? && (IsRed(g) || Length(q) < Length(p))
      ensures Inorder(Plug(q, g)) == Inorder(Plug(p, f))
      ensures head.left == old(head.left) && head.right == old(head.right)
    {
      HasSibling(p, f);
      hide RepAt; hide Snap; hide OneShort; hide Mended; hide Inorder; hide Plug; hide RedBlack;
      Kin(repr, head, p, f);
      var pnode := fixparent.left;
      q := p;
      if pnode.color == Red {
        RedSiblingCase(p, f);
        pnode := RotateRedSiblingRight(pnode, fixparent, p, f);
        q := BlackSibling(p);
      }
      Kin(repr, head, q, f);
      Nephews(repr, head, q, f);
      assert pnode != head;
      if pnode.left.color == Black && pnode.right.color == Black {
        PushUp(q, f);
        ghost var q1 := q.(sibling := q.sibling.(color := Red));
        PaintSibling(pnode, Red, q, f);
        ZipUp(Snap(repr), head, q1, f);
        PushedUp(p, q, f);
        node, done, q, g := fixparent, false, q.up, Join(q1, f);
      } else {
        if pnode.left.color == Black {
          NearRedCase(q, f);
          pnode := RotateNephewRight(pnode, fixparent, q, f);
          q := FarRed(q);
        }
        FarRedCase(q, f);
        RepayRight(pnode, fixparent, q, f);
        node, done, q, g := fixnode, true, Repaid(q), f;
      }
    }

    /** rb_erase_node, the loop that makes up for a black node taken away, and the last store. */
    method FixErase(fixnode: RbNode, fixparent: RbNode, ghost p: Path, ghost f: Tree)
              returns (ghost q: Path, ghost g: Tree)
      requires RepAt(Snap(repr), head, p, f) && OneShort(p, f)
      requires fixnode == Root(f, head) && fixparent == Up(p, head)
      modifies repr
      ensures RepAt(Snap(repr), head, q, g) && RedBlack(Plug(q, g)) && !IsRed(Plug(q, g))
      ensures Inorder(Plug(q, g)) == Inorder(Plug(p, f))
      ensures head.left == old(head.left) && head.right == old(head.right)
    {
      hide RepAt; hide Snap; hide OneShort; hide Mended; hide Inorder; hide Plug; hide RedBlack; hide Length;
      var node, parent, done := fixnode, fixparent, false;
      q, g := p, f;
      FixGuard(repr, head, q, g);
      while !done && node != head.parent && node.color == Black
        invariant RepAt(Snap(repr), head, q, g) && node == Root(g, head)
        invariant if done then Mended(q, g) else OneShort(q, g) && parent == Up(q, head)
        invariant Inorder(Plug(q, g)) == Inorder(Plug(p, f))
        invariant head.left == old(head.left) && head.right == old(head.right)
        decreases if done then 0 else 1, if IsRed(g) then 0 else 1, Length(q)
      {
        FixGuard(repr, head, q, g);
        HasSibling(q, g);
        Kin(repr, head, q, g);
        if node == parent.left {
          node, done, q, g := FixEraseLeft(node, parent, q, g);
        } else {
          node, done, q, g := FixEraseRight(node, parent, q, g);
        }
        if !done {
          Kin(repr, head, q, g);
          parent := node.parent;
        }
        FixGuard(repr, head, q, g);
      }
      FixGuard(repr, head, q, g);
      EraseDone(q, g);
      PaintFocus(node, q, g);
      g := Blacken(g);
    }

    /** The store at the very end; on the sentinel, which is black, it changes nothing. */
    method PaintFocus(node: RbNode, ghost q: Path, ghost g: Tree)
      requires RepAt(Snap(repr), head, q, g) && node == Root(g, head)
      modifies repr
      ensures RepAt(Snap(repr), head, q, Blacken(g))
      ensures head.left == old(head.left) && head.right == old(head.right)
    {
      ghost var m := Snap(repr);
      FixGuard(repr, head, q, g);
      node.color := Black;
      if g.Node? {
        Recolored(m, Snap(repr), head, q, g, Black);
      } else {
        EndsStored(m, Snap(repr), head, q, g);
      }
    }

    /** A node with at most one child is taken out, and the cached ends follow. */
    method TakeSingle(erased: RbNode, fixnode: RbNode, ghost p: Path, ghost t: Tree, ghost f: Tree)
              returns (fixparent: RbNode)
      requires RepAt(Snap(repr), head, p, t) && OnlyChild(t, f) && t.node == erased && Balanced(p, t) &&
        fixnode == Root(f, head)
      requires NoDup(Before(p) + Inorder(t) + After(p))
      requires var xs := Before(p) + Inorder(t) + After(p); head.left == First(xs, head) && head.right == Last(xs, head)
      modifies repr
      ensures RepAt(Snap(repr), head, p, f) && fixparent == Up(p, head)
      ensures if erased.color == Black then OneShort(p, f) else Mended(p, f)
      ensures Inorder(Plug(p, f)) == Without(p, t)
      ensures head.left == First(Without(p, t), head) && head.right == Last(Without(p, t), head)
    {
      Kin(repr, head, p, t);
      SpliceEnds(head, p, t, f);
      SpliceOrder(p, t, f);
      SpliceBalance(p, t, f);
      hide RepAt; hide Snap; hide First; hide Last; hide Without; hide NoDup; hide Before; hide After; hide Inorder;
      hide OneShort; hide Mended; hide Balanced; hide Plug;
      fixparent := SpliceOut(erased, fixnode, p, t, f);
      MoveFirst(erased, fixnode, fixparent, p, f);
      MoveLast(erased, fixnode, fixparent, p, f);
    }

    /** rb_erase_node up to the rebalancing: `fixnode` is the subtree where a black node may be
        missing now, and `fixparent` is the node above it. */
    method TakeOut(erased: RbNode, node: RbNode, ghost p: Path, ghost t: Tree)
      returns (fixnode: RbNode, fixparent: RbNode, ghost q: Path, ghost f: Tree)
      requires RepAt(Snap(repr), head, p, t) && t.Node? && t.node == erased && Balanced(p, t)
      requires t.right.Node? ==> node == Leftmost(GoRight(p, t), t.right).1.node
      requires NoDup(Before(p) + Inorder(t) + After(p))
      requires var xs := Before(p) + Inorder(t) + After(p); head.left == First(xs, head) && head.right == Last(xs, head)
      modifies repr
      ensures RepAt(Snap(repr), head, q, f) && fixnode == Root(f, head) && fixparent == Up(q, head)
      ensures if erased.color == Black then OneShort(q, f) else Mended(q, f)
      ensures Inorder(Plug(q, f)) == Without(p, t)
      ensures head.left == First(Without(p, t), head) && head.right == Last(Without(p, t), head)
    {
      Down(repr, head, p, t);
      if t.left.Node? && t.right.Node? {
        HeirFacts(p, t);
      }
      hide RepAt; hide Snap; hide First; hide Last; hide Without; hide NoDup; hide Before; hide After; hide Inorder;
      hide OneShort; hide Mended; hide Balanced; hide Plug; hide HeirPath;
      var pnode := erased;
      if pnode.left == head {
        fixnode := pnode.right;
        f := t.right;
      } else if pnode.right == head {
        fixnode := pnode.left;
        f := t.left;
      } else {
        pnode := node;
        fixnode := pnode.right;
        f := Descent(t.right).1.right;
      }
      if pnode == erased {
        q := p;
        fixparent := TakeSingle(erased, fixnode, p, t, f);
      } else {
        q := HeirPath(p, t);
        fixparent := Transplant(erased, pnode, fixnode, p, t, Descent(t.right).0, Descent(t.right).1);
      }
    }

    /** Everything the replacement by the successor relies on. */
    lemma HeirFacts(p: Path, t: Tree)
      requires RepAt(Snap(repr), head, p, t) && t.Node? && t.left.Node? && t.right.Node? && Balanced(p, t)
      ensures var (pr, y) := Descent(t.right);
        && Heir(t, y, pr) && y.Node? && Leftmost(GoRight(p, t), t.right).1 == y && y.node != t.node
        && y.node.right == Root(y.right, head)
        && (if y.color.Black? then OneShort(HeirPath(p, t), y.right) else Mended(HeirPath(p, t), y.right))
        && Inorder(Plug(HeirPath(p, t), y.right)) == Without(p, t)
      ensures First(Without(p, t), head) == First(Before(p) + Inorder(t) + After(p), head)
      ensures Last(Without(p, t), head) == Last(Before(p) + Inorder(t) + After(p), head)
    {
      var (pr, y) := Descent(t.right);
      LeftmostExtends(Top, GoRight(p, t), t.right);
      HeirLinks(repr, head, p, t, pr, y);
      HeirBalance(p, t, pr, y);
      HeirOrder(p, t, pr, y);
      HeirEnds(head, p, t);
    }

    /** rb_erase: the node leaves the tree, everything else stays in order, and the result is its
        successor. */
    method Erase(erased: RbNode, ghost i: nat) returns (node: RbNode)
      requires Valid() && i < |Elements()| && Elements()[i] == erased
      modifies this, repr
      ensures Valid() && repr == old(repr) - {erased}
      ensures Elements() == old(Elements())[..i] + old(Elements())[i + 1..]
      ensures node == At(old(Elements()), i + 1, head)
    {
      ghost var p, t := Located(erased, i);
      ghost var xs := Elements();
      ErasePlan(p, t, i);
      ghost var s;
      node, s := NodeNext(erased, p, t);
      hide Shaped; hide Here; hide RepAt; hide Snap; hide First; hide Last; hide Without; hide NoDup; hide Before;
      hide After;
      hide Inorder; hide OneShort; hide Mended; hide Balanced; hide Plug; hide Nodes; hide Sorted; hide StrictWeakOrder;
      ghost var q, f;
      var fixnode, fixparent;
      fixnode, fixparent, q, f := TakeOut(erased, node, p, t);
      if erased.color == Black {
        q, f := FixErase(fixnode, fixparent, q, f);
      } else {
        MendedDone(q, f);
      }
      Shrink(erased, q, f, xs, i);
    }

    lemma ErasePlan(p: Path, t: Tree, i: nat)
      requires Valid() && Here(p, t) && t.Node? && Place(p, t) == i && t == Locate(Top, tree, t.node).1 &&
        p == Locate(Top, tree, t.node).0
      requires t.node in Nodes(tree)
      ensures Balanced(p, t) && NoDup(Before(p) + Inorder(t) + After(p))
      ensures Before(p) + Inorder(t) + After(p) == Elements()
      ensures Without(p, t) == Elements()[..i] + Elements()[i + 1..]
      ensures First(Inorder(t.right) + After(p), head) == At(Elements(), i + 1, head)
      ensures Sorted(Elements()[..i] + Elements()[i + 1..], comp, multi)
    {
      hide Shaped; hide Inorder; hide Before; hide After; hide Without; hide Place; hide Balanced;
      BalancedTop(tree);
      LocateBalance(Top, tree, t.node);
      ErasedOrder(p, t, i);
      SortedDelete(Elements(), comp, multi, i);
    }

    lemma ErasedOrder(p: Path, t: Tree, i: nat)
      requires Valid() && Here(p, t) && t.Node? && Place(p, t) == i
      ensures NoDup(Before(p) + Inorder(t) + After(p)) && Before(p) + Inorder(t) + After(p) == Elements()
      ensures i < |Elements()| && Without(p, t) == Elements()[..i] + Elements()[i + 1..]
      ensures First(Inorder(t.right) + After(p), head) == At(Elements(), i + 1, head)
    {
      DistinctNoDup(tree);
      WithoutIsErased(p, t);
    }

    /** Last step: the erased node no longer belongs to the tree. */
    method Shrink(erased: RbNode, ghost p: Path, ghost t: Tree, ghost xs: seq<RbNode>, ghost i: nat)
      requires RepAt(Snap(repr), head, p, t) && RedBlack(Plug(p, t)) && !IsRed(Plug(p, t))
      requires i < |xs| && xs[i] == erased && Inorder(Plug(p, t)) == xs[..i] + xs[i + 1..] && NoDup(xs)
      requires repr == {head} + Nodes(tree) && Inorder(tree) == xs && size == |xs| && erased != head
      requires head.left == First(xs[..i] + xs[i + 1..], head) && head.right == Last(xs[..i] + xs[i + 1..], head)
      modifies `tree, `size, `repr
      ensures Shaped() && repr == old(repr) - {erased} && Elements() == xs[..i] + xs[i + 1..]
    {
      hide RepAt; hide RedBlack; hide BlackHeight; hide First; hide Last; hide Inorder; hide Plug; hide Nodes;
      hide NoDup;
      ghost var m := Snap(repr);
      ZipTop(m, head, p, t);
      ErasedNodes(tree, Plug(p, t), i);
      tree := Plug(p, t);
      size := size - 1;
      repr := repr - {erased};
      TopFrame(m, Snap(repr), head, tree);
    }

    // -------------------------------------------------------------------------------------
    // Erasing many nodes

    /** rb_clear */
    method Clear()
      requires Valid()
      modifies this, repr
      ensures Valid() && Elements() == [] && repr == {head}
    {
      head.parent, head.left, head.right, head.color := head, head, head, Black;
      size, tree, repr := 0, Leaf, {head};
    }

    /** What the loops over the nodes need to know. */
    lemma Facts()
      requires Valid()
      ensures size == |Elements()| && head.left == First(Elements(), head) && head in repr
      ensures forall k :: 0 <= k < |Elements()| ==> Elements()[k] != head
      ensures NoDup(Elements())
    {
      DistinctNoDup(tree);
      InorderNodes(tree);
    }

    /** rb_erase_rgcnt: the nodes from `begin` up to but without `end` go, and are counted. */
    method EraseRange(begin: RbNode, end: RbNode, ghost i: nat, ghost j: nat) returns (dist: nat)
      requires Valid() && i <= j <= |Elements()| && begin == At(Elements(), i, head) && end == At(Elements(), j, head)
      modifies this, repr
      ensures Valid() && repr <= old(repr)
      ensures Elements() == old(Elements())[..i] + old(Elements())[j..] && dist == j - i
    {
      hide Valid; hide Elements; hide Inorder; hide NoDup; hide First; hide At;
      ghost var xs := Elements();
      Facts();
      if begin == head.left && end == head {
        WholeRange(Elements(), i, j);
        dist := size;
        Clear();
      } else {
        dist := 0;
        var node := begin;
        assert Elements() == xs[..i] + xs[i..];
        ghost var k := i;
        while node != end
          invariant Valid() && repr <= old(repr) && k <= j && dist == k - i
          invariant Elements() == xs[..i] + xs[k..] && node == At(xs, k, head)
          decreases j - k
        {
          StillBefore(xs, k, j);
          CutNext(xs, i, k);
          node := Erase(node, i);
          dist := dist + 1;
          k := k + 1;
        }
        SamePlace(xs, k, j);
      }
    }

    lemma StillBefore(xs: seq<RbNode>, k: nat, j: nat)
      requires k <= j <= |xs| && At(xs, k, head) != At(xs, j, head)
      ensures k < j && At(xs, k, head) == xs[k]
    {
    }

    lemma SamePlace(xs: seq<RbNode>, i: nat, j: nat)
      requires NoDup(xs) && i <= j <= |xs| && At(xs, i, head) == At(xs, j, head)
      requires forall k :: 0 <= k < |xs| ==> xs[k] != head
      ensures i == j
    {
    }

    lemma WholeRange(xs: seq<RbNode>, i: nat, j: nat)
      requires NoDup(xs) && i <= j <= |xs| && At(xs, i, head) == First(xs, head) && At(xs, j, head) == head
      requires forall k :: 0 <= k < |xs| ==> xs[k] != head
      ensures xs[..i] + xs[j..] == [] && j - i == |xs|
    {
    }

    lemma CutNext(xs: seq<RbNode>, i: nat, k: nat)
      requires i <= k < |xs|
      ensures var ys := xs[..i] + xs[k..];
        && ys[i] == xs[k] && ys[..i] + ys[i + 1..] == xs[..i] + xs[k + 1..]
        && At(ys, i + 1, head) == At(xs, k + 1, head)
    {
    }

    /** rb_erase_val: exactly the nodes equivalent to `val` go, and their number is returned. */
    method EraseValue(val: RbNode) returns (dist: nat, ghost i: nat, ghost j: nat)
      requires Valid()
      modifies this, repr
      ensures Valid() && i <= j <= |old(Elements())| && dist == j - i
      ensures forall k :: 0 <= k < |old(Elements())| ==> (i <= k < j <==> Equivalent(comp, old(Elements())[k], val))
      ensures Elements() == old(Elements())[..i] + old(Elements())[j..]
    {
      var begin, end;
      begin, end, i, j := EqualRange(val);
      BoundsEncloseEquivalents(Elements(), comp, val, i, j);
      dist := EraseRange(begin, end, i, j);
    }

    /** rb_clear_free: every node is handed to the caller's function once, in order. */
    method ClearFree() returns (freed: seq<RbNode>)
      requires Valid()
      modifies this, repr
      ensures Valid() && Elements() == [] && freed == old(Elements())
    {
      hide Valid; hide Elements; hide Inorder; hide First; hide NoDup; hide Costs;
      ghost var xs := Elements();
      freed := [];
      Facts();
      FirstAt(xs, head);
      if size == 0 {
        return;
      }
      var node := head.left;
      while node != head
        invariant Valid() && repr <= old(repr) && |freed| <= |xs|
        invariant freed == xs[..|freed|] && Elements() == xs[|freed|..] && node == At(xs, |freed|, head)
        decreases |xs| - |freed|
      {
        CutNext(xs, 0, |freed|);
        assert xs[..0] + xs[|freed|..] == xs[|freed|..];
        var next, _ := Next(node, 0);
        var _ := Erase(node, 0);
        freed := freed + [node];
        assert xs[..0] + xs[|freed|..] == xs[|freed|..];
        node := next;
      }
      Clear();
    }

    /** The traversal of rbtree.h:157-163: it visits the nodes in order and follows at most two
        links per node. */
    method Traverse() returns (visited: seq<RbNode>, ghost steps: nat)
      requires Valid()
      ensures visited == Elements() && steps <= 2 * size
    {
      hide Valid; hide Inorder; hide Costs;
      Facts();
      visited, steps := [], 0;
      var it := head.left;
      ghost var costs := Costs(Top, tree);
      WholeTour(tree);
      assert costs[..0] == [];
      while it != head
        invariant |visited| <= |Elements()| == |costs| && visited == Elements()[..|visited|]
        invariant it == At(Elements(), |visited|, head) && steps == Sum(costs[..|visited|])
        decreases |Elements()| - |visited|
      {
        ghost var i := |visited|;
        assert costs[..i + 1][..i] == costs[..i];
        visited := visited + [it];
        ghost var s;
        it, s := Next(it, i);
        steps := steps + s;
      }
      assert costs[..|costs|] == costs;
    }
  }
}
