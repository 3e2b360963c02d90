/** The red-black tree of src/kernel/rbtree.c on the heap. */
module RbTree {
  import opened RedBlack

  // ---------- heap shape ----------

  /** Child pointers agree with the tree. */
  ghost predicate Shape(t: Tree)
    reads Nodes(t)`left, Nodes(t)`right
  {
    match t
    case Leaf => true
    case Node(l, n, _, r) => n.left == Root(l) && n.right == Root(r) && Shape(l) && Shape(r)
  }

  /** Parent pointers below the root agree with the tree. */
  ghost predicate Kids(t: Tree)
    reads Below(t)`parent
  {
    match t
    case Leaf => true
    case Node(l, n, _, r) =>
      (l.Node? ==> l.item.parent == n) && (r.Node? ==> r.item.parent == n) && Kids(l) && Kids(r)
  }

  ghost predicate Colored(t: Tree)
    reads Nodes(t)`color
  {
    match t
    case Leaf => true
    case Node(l, n, c, r) => n.color == c && Colored(l) && Colored(r)
  }

  /** The heap holds `t`, hanging below `up`. */
  ghost predicate Stored(t: Tree, up: RbNode?)
    reads Nodes(t)`parent, Nodes(t)`left, Nodes(t)`right, Nodes(t)`color
  {
    (t.Node? ==> t.item.parent == up) && Shape(t) && Kids(t) && Colored(t)
  }

  ghost predicate CtxKids(ctx: Ctx)
    reads CtxNodes(ctx)`parent
  {
    ctx.Top? ||
    (ctx.item.parent == ParentOf(ctx.up) && (ctx.sib.Node? ==> ctx.sib.item.parent == ctx.item)
     && Kids(ctx.sib) && CtxKids(ctx.up))
  }

  ghost predicate CtxColored(ctx: Ctx)
    reads CtxNodes(ctx)`color
  {
    ctx.Top? || (ctx.item.color == ctx.color && Colored(ctx.sib) && CtxColored(ctx.up))
  }

  /** struct rb_root.  `tree` is the value the linked structure stands for. */
  class RbRoot {
    var node: RbNode?
    ghost var tree: Tree
    ghost var repr: set<RbNode>

    /** RB_ROOT */
    constructor ()
      ensures Valid() && tree == Leaf && repr == {}
    {
      node, tree, repr := null, Leaf, {};
    }

    /** Child pointers of the context, with `hole` in its hole. */
    ghost predicate CtxShape(ctx: Ctx, hole: RbNode?)
      reads this`node, CtxNodes(ctx)`left, CtxNodes(ctx)`right
    {
      match ctx
      case Top => node == hole
      case InLeft(n, _, r, up) => n.left == hole && n.right == Root(r) && Shape(r) && CtxShape(up, n)
      case InRight(n, _, l, up) => n.right == hole && n.left == Root(l) && Shape(l) && CtxShape(up, n)
    }

    /** The heap outside the hole agrees with the context. */
    ghost predicate CtxStored(ctx: Ctx, hole: RbNode?)
      reads this`node
      reads CtxNodes(ctx)`parent, CtxNodes(ctx)`left, CtxNodes(ctx)`right, CtxNodes(ctx)`color
    {
      CtxShape(ctx, hole) && CtxKids(ctx) && CtxColored(ctx)
    }

    /** The heap holds the tree `Plug(ctx, t)`, seen from the place `ctx`. */
    ghost predicate At(ctx: Ctx, t: Tree)
      reads this`node, this`repr
      reads CtxNodes(ctx)`parent, CtxNodes(ctx)`left, CtxNodes(ctx)`right, CtxNodes(ctx)`color
      reads Nodes(t)`parent, Nodes(t)`left, Nodes(t)`right, Nodes(t)`color
    {
      repr == Nodes(t) + CtxNodes(ctx) && Apart(ctx, t) && Stored(t, ParentOf(ctx)) && CtxStored(ctx, Root(t))
    }

    /** A red-black tree with a black root. */
    ghost predicate Valid()
      reads this`node, this`tree, this`repr
      reads repr`parent, repr`left, repr`right, repr`color
    {
      repr == Nodes(tree) && At(Top, tree) && IsRB(tree) && !IsRed(tree)
    }

    lemma RootIsThere(t: Tree)
      requires At(Top, t)
      ensures node == Root(t) && repr == Nodes(t)
    {
    }

    /** Moving the focus one step along a link changes nothing. */
    lemma Refocus(ctx: Ctx, t: Tree)
      requires !ctx.Top?
      ensures At(ctx, t) <==> At(ctx.up, Fill(ctx, t))
    {
      FillNodes(ctx, t);
    }

    lemma {:induction false} RefocusAll(inner: Ctx, outer: Ctx, t: Tree)
      ensures At(Compose(inner, outer), t) <==> At(outer, Plug(inner, t))
      decreases inner
    {
      if !inner.Top? {
        Refocus(Compose(inner, outer), t);
        RefocusAll(inner.up, outer, Fill(inner, t));
      }
    }
  }

  // ---------- rotations ----------

  /** Repeated inline in rbtree.c: make the link from the parent (or the root) point to the
      root of `t` where it pointed to `node`. */
  method ReplaceChild(parent: RbNode?, node: RbNode?, child: RbNode?, root: RbRoot, ghost ctx: Ctx, ghost t: Tree)
    requires parent == ParentOf(ctx) && child == Root(t)
    requires Apart(ctx, t) && root.CtxStored(ctx, node) && Stored(t, parent)
    requires root.repr == Nodes(t) + CtxNodes(ctx)
    requires node != null && node !in CtxNodes(ctx)
    modifies root`node, (if ctx.Top? then {} else {ctx.item})`left, (if ctx.Top? then {} else {ctx.item})`right
    ensures root.At(ctx, t)
  {
    assert !ctx.Top? ==> ctx.item in CtxNodes(ctx) && ctx.item !in Nodes(t);
    assert !ctx.Top? && ctx.sib.Node? ==> ctx.sib.item in Nodes(ctx.sib);
    if parent != null {
      if parent.left == node {
        parent.left := child;
      } else {
        parent.right := child;
      }
    } else {
      root.node := child;
    }
  }

  /** The part of __rb_rotate_left that stays inside the rotated subtree. */
  method TurnLeft(node: RbNode, ghost t: Tree)
    requires t.Node? && t.right.Node? && node == t.item && Distinct(t)
    requires Shape(t) && Kids(t)
    modifies Nodes(t)`parent, Nodes(t)`left, Nodes(t)`right
    ensures Shape(RotL(t)) && Kids(RotL(t)) && t.right.item.parent == old(node.parent)
  {
    hide Nodes, Below, Distinct;
    RotLNodes(t);
    ghost var a, b, c := t.left, t.right.left, t.right.right;
    assert Shape(t.right) && Kids(t.right);
    assert Kids(b);
    var right := node.right;
    node.right := right.left;
    if node.right != null {
      right.left.parent := node;
    }
    right.left := node;
    right.parent := node.parent;
    node.parent := right;
    assert Shape(a) && Shape(b) && Shape(c);
    assert Kids(a) && Kids(b) && Kids(c);
    assert Kids(RotL(t).left);
  }

  method TurnRight(node: RbNode, ghost t: Tree)
    requires t.Node? && t.left.Node? && node == t.item && Distinct(t)
    requires Shape(t) && Kids(t)
    modifies Nodes(t)`parent, Nodes(t)`left, Nodes(t)`right
    ensures Shape(RotR(t)) && Kids(RotR(t)) && t.left.item.parent == old(node.parent)
  {
    hide Nodes, Below, Distinct;
    RotRNodes(t);
    ghost var a, b, c := t.left.left, t.left.right, t.right;
    assert Shape(t.left) && Kids(t.left);
    assert Kids(b);
    var left := node.left;
    node.left := left.right;
    if node.left != null {
      left.right.parent := node;
    }
    left.right := node;
    left.parent := node.parent;
    node.parent := left;
    assert Shape(a) && Shape(b) && Shape(c);
    assert Kids(a) && Kids(b) && Kids(c);
    assert Kids(RotR(t).right);
  }

  lemma ColoredTurnL(t: Tree)
    requires t.Node? && t.right.Node? && Colored(t)
    ensures Colored(RotL(t)) && Root(RotL(t)) == t.right.item
  {
    assert Colored(t.right);
  }

  lemma ColoredTurnR(t: Tree)
    requires t.Node? && t.left.Node? && Colored(t)
    ensures Colored(RotR(t)) && Root(RotR(t)) == t.left.item
  {
    assert Colored(t.left);
  }

  /** What the rotations and the fix-ups read at the focus. */
  lemma FocusFacts(root: RbRoot, ctx: Ctx, t: Tree)
    requires root.At(ctx, t)
    ensures Distinct(t) && Stored(t, ParentOf(ctx)) && Shape(t) && Kids(t) && Colored(t) && root.CtxStored(ctx, Root(t))
    ensures t.Node? ==> t.item in root.repr && t.item !in CtxNodes(ctx) && t.item.parent == ParentOf(ctx)
    ensures t.Node? ==> t.item.color == t.color && t.item.left == Root(t.left) && t.item.right == Root(t.right)
    ensures t.Node? ==> Colored(t.left) && Colored(t.right)
    ensures !ctx.Top? ==> ctx.item in root.repr && ctx.item in CtxNodes(ctx)
    ensures forall n :: n in Nodes(t) ==> n in root.repr
  {
    assert t.Node? ==> t.item in Nodes(t);
    assert !ctx.Top? ==> ctx.item in CtxNodes(ctx);
  }

  /** What can be read off the heap around the hole. */
  lemma Surroundings(root: RbRoot, ctx: Ctx, t: Tree)
    requires root.At(ctx, t) && !ctx.Top?
    ensures ctx.item in root.repr && ctx.item.color == ctx.color && ctx.item.parent == ParentOf(ctx.up)
    ensures ctx.InLeft? ==> ctx.item.left == Root(t) && ctx.item.right == Root(ctx.sib)
    ensures ctx.InRight? ==> ctx.item.right == Root(t) && ctx.item.left == Root(ctx.sib)
    ensures t.Node? ==> t.item in root.repr && t.item.parent == ctx.item && Root(t) != Root(ctx.sib)
    ensures var s := ctx.sib; s.Node? ==>
      s.item in root.repr && s.item.color == s.color && s.item.left == Root(s.left) && s.item.right == Root(s.right)
      && (s.left.Node? ==> s.left.item in root.repr && s.left.item.color == s.left.color)
      && (s.right.Node? ==> s.right.item in root.repr && s.right.item.color == s.right.color)
  {
    var s := ctx.sib;
    if s.Node? {
      assert Shape(s) && Colored(s) && Colored(s.left) && Colored(s.right);
      assert s.item in Nodes(s) && Nodes(s.left) <= Nodes(s) && Nodes(s.right) <= Nodes(s);
      assert s.left.Node? ==> s.left.item in Nodes(s.left);
      assert s.right.Node? ==> s.right.item in Nodes(s.right);
    }
    assert ctx.item in CtxNodes(ctx);
    assert t.Node? ==> t.item in Nodes(t);
  }

  method RotateLeft(node: RbNode, root: RbRoot, ghost ctx: Ctx, ghost t: Tree)
    requires t.Node? && t.right.Node? && node == t.item
    requires root.At(ctx, t)
    modifies root`node
    modifies root.repr`parent, root.repr`left, root.repr`right
    ensures root.At(ctx, RotL(t))
    ensures Nodes(RotL(t)) == Nodes(t) && InOrder(RotL(t)) == InOrder(t)
  {
    hide Nodes, Below, Distinct, CtxNodes, DistinctCtx, Shape, Kids, Colored, CtxKids, CtxColored, RbRoot.CtxShape, InOrder;
    RotLNodes(t);
    FocusFacts(root, ctx, t);
    ColoredTurnL(t);
    assert allocated(CtxNodes(ctx)) && allocated(Nodes(t));
    var right, parent := node.right, node.parent;
    TurnLeft(node, t);
    assert Colored(RotL(t));
    ReplaceChild(parent, node, right, root, ctx, RotL(t));
  }

  method RotateRight(node: RbNode, root: RbRoot, ghost ctx: Ctx, ghost t: Tree)
    requires t.Node? && t.left.Node? && node == t.item
    requires root.At(ctx, t)
    modifies root`node
    modifies root.repr`parent, root.repr`left, root.repr`right
    ensures root.At(ctx, RotR(t))
    ensures Nodes(RotR(t)) == Nodes(t) && InOrder(RotR(t)) == InOrder(t)
  {
    hide Nodes, Below, Distinct, CtxNodes, DistinctCtx, Shape, Kids, Colored, CtxKids, CtxColored, RbRoot.CtxShape, InOrder;
    RotRNodes(t);
    FocusFacts(root, ctx, t);
    ColoredTurnR(t);
    assert allocated(CtxNodes(ctx)) && allocated(Nodes(t));
    var left, parent := node.left, node.parent;
    TurnRight(node, t);
    assert Colored(RotR(t));
    ReplaceChild(parent, node, left, root, ctx, RotR(t));
  }

  // ---------- insertion ----------

  /** The pointer-to-pointer through which rb_link_node stores. */
  datatype Link = RootLink | LeftLink | RightLink

  ghost predicate LinkIs(link: Link, ctx: Ctx) {
    match ctx
    case Top => link.RootLink?
    case InLeft(_, _, _, _) => link.LeftLink?
    case InRight(_, _, _, _) => link.RightLink?
  }

  /** *link = node */
  method StoreLink(link: Link, parent: RbNode?, node: RbNode, root: RbRoot, ghost ctx: Ctx, ghost t: Tree)
    requires parent == ParentOf(ctx) && LinkIs(link, ctx) && node == Root(t)
    requires Apart(ctx, t) && root.CtxStored(ctx, null) && Stored(t, parent)
    requires root.repr == Nodes(t) + CtxNodes(ctx)
    modifies root`node, (if ctx.Top? then {} else {ctx.item})`left, (if ctx.Top? then {} else {ctx.item})`right
    ensures root.At(ctx, t)
  {
    assert !ctx.Top? ==> ctx.item in CtxNodes(ctx) && ctx.item !in Nodes(t);
    match link {
      case RootLink => root.node := node;
      case LeftLink => parent.left := node;
      case RightLink => parent.right := node;
    }
  }

  lemma NewLeaf(node: RbNode, root: RbRoot, ctx: Ctx)
    requires root.At(ctx, Leaf) && node !in root.repr
    ensures var t := Node(Leaf, node, Red, Leaf);
      Nodes(t) == {node} && Below(t) == {} && Apart(ctx, t) && node !in CtxNodes(ctx)
    ensures root.repr == CtxNodes(ctx) && root.CtxStored(ctx, null)
    ensures !ctx.Top? ==> ctx.item in CtxNodes(ctx)
  {
    assert !ctx.Top? ==> ctx.item in CtxNodes(ctx);
  }

  method LinkNode(node: RbNode, parent: RbNode?, link: Link, root: RbRoot, ghost ctx: Ctx)
    requires root.At(ctx, Leaf) && parent == ParentOf(ctx) && LinkIs(link, ctx) && node !in root.repr
    modifies root`node, root`repr, node`parent, node`left, node`right, node`color
    modifies (if ctx.Top? then {} else {ctx.item})`left, (if ctx.Top? then {} else {ctx.item})`right
    ensures root.At(ctx, Node(Leaf, node, Red, Leaf)) && root.repr == old(root.repr) + {node}
  {
    hide RbRoot.CtxStored, CtxNodes, Distinct, DistinctCtx;
    ghost var t := Node(Leaf, node, Red, Leaf);
    NewLeaf(node, root, ctx);
    node.parent := parent;
    node.color := Red;
    node.left, node.right := null, null;
    root.repr := root.repr + {node};
    StoreLink(link, parent, node, root, ctx, t);
  }

  /** The store n->rb_color = c, seen from n. */
  method Paint(n: RbNode, c: Color, root: RbRoot, ghost ctx: Ctx, ghost t: Tree)
    requires t.Node? && t.item == n && root.At(ctx, t)
    modifies n`color
    ensures root.At(ctx, Recolor(t, c))
  {
    n.color := c;
  }
}
