/** rb_insert_color: the climb that removes a red-red clash. */
module RbInsert {
  import opened RedBlack
  import opened RbTree

  /** The state of the climb: the focus is a red node whose subtree obeys the rules, and so
      does everything else; only the focus and its parent may both be red. */
  ghost predicate RedFocus(ctx: Ctx, t: Tree) {
    IsRed(t) && IsRB(t) && CtxRB(ctx, BlackHeight(t))
  }

  ghost predicate Clash(ctx: Ctx) { !ctx.Top? && ctx.color.Red? }

  /** Red parent and uncle exchange colours with the grandparent. */
  ghost function Flip(t: Tree): Tree
    requires t.Node?
  {
    t.(color := Red, left := Blacken(t.left), right := Blacken(t.right))
  }

  lemma FlipKeeps(t: Tree)
    requires t.Node?
    ensures InOrder(Flip(t)) == InOrder(t) && Nodes(Flip(t)) == Nodes(t)
  {
    assert InOrder(Blacken(t.left)) == InOrder(t.left) && InOrder(Blacken(t.right)) == InOrder(t.right);
  }

  /** With a red uncle the clash moves two levels up. */
  lemma FlipRaises(ctx: Ctx, t: Tree)
    requires RedFocus(ctx, t) && Clash(ctx) && IsRed(ctx.up.sib)
    ensures RedFocus(ctx.up.up, Flip(Fill(ctx.up, Fill(ctx, t))))
    ensures Sequence(ctx.up.up, Flip(Fill(ctx.up, Fill(ctx, t)))) == Sequence(ctx, t)
  {
    var p := Fill(ctx, t);
    var g := Fill(ctx.up, p);
    FillSequence(ctx, t);
    FillSequence(ctx.up, p);
    FlipKeeps(g);
    assert CtxRB(ctx.up, BlackHeight(t));
    assert IsRB(Blacken(p)) && BlackHeight(Blacken(p)) == BlackHeight(t) + 1;
    assert IsRB(Blacken(ctx.up.sib)) && BlackHeight(Blacken(ctx.up.sib)) == BlackHeight(t) + 1;
  }

  lemma FlipShape(t: Tree)
    requires t.Node? && Distinct(t) && Shape(t) && Kids(t)
    ensures Distinct(Flip(t)) && Shape(Flip(t)) && Kids(Flip(t))
  {
    FlipKeeps(t);
    assert Distinct(Blacken(t.left)) && Distinct(Blacken(t.right));
    assert Shape(Blacken(t.left)) && Shape(Blacken(t.right)) && Kids(Blacken(t.left)) && Kids(Blacken(t.right));
  }

  /** The three nodes that Flip repaints, and four subtrees that do not contain them. */
  lemma FlipFacts(ctx: Ctx, t: Tree)
    requires t.Node? && t.left.Node? && t.right.Node? && Apart(ctx, t)
    ensures var g, l, r := t.item, t.left, t.right;
      g != l.item && g != r.item && l.item != r.item && {g, l.item, r.item} <= Nodes(t) && {g, l.item, r.item} !! CtxNodes(ctx)
      && Outside(g, l.left) && Outside(g, l.right) && Outside(g, r.left) && Outside(g, r.right)
      && Outside(l.item, l.left) && Outside(l.item, l.right) && Outside(l.item, r.left) && Outside(l.item, r.right)
      && Outside(r.item, l.left) && Outside(r.item, l.right) && Outside(r.item, r.left) && Outside(r.item, r.right)
  {
    var l, r := t.left, t.right;
    assert Distinct(l) && Distinct(r);
    assert l.item in Nodes(l) && r.item in Nodes(r);
    assert Nodes(l.left) <= Nodes(l) && Nodes(l.right) <= Nodes(l) && Nodes(r.left) <= Nodes(r) && Nodes(r.right) <= Nodes(r);
  }

  method FlipColors(gparent: RbNode, parent: RbNode, uncle: RbNode, root: RbRoot, ghost ctx: Ctx, ghost t: Tree)
    requires root.At(ctx, t) && t.Node? && t.item == gparent && t.left.Node? && t.right.Node?
    requires (t.left.item == parent && t.right.item == uncle) || (t.left.item == uncle && t.right.item == parent)
    modifies root.repr`color
    ensures root.At(ctx, Flip(t))
  {
    hide Nodes, CtxNodes, RbRoot.CtxShape, DistinctCtx, CtxKids, Shape, Kids, Distinct, InOrder;
    FlipKeeps(t);
    FocusFacts(root, ctx, t);
    FlipShape(t);
    FlipFacts(ctx, t);
    ghost var l, r := t.left, t.right;
    assert Colored(l) && Colored(r);
    uncle.color := Black;
    parent.color := Black;
    gparent.color := Red;
    assert Colored(l.left) && Colored(l.right) && Colored(r.left) && Colored(r.right);
    assert Colored(Blacken(l)) && Colored(Blacken(r));
    assert CtxColored(ctx);
  }

  /** Clash below a left child, focus on the inner side: after turning the parent left the
      old parent is the focus and the old focus its parent. */
  lemma TurnInner(ctx: Ctx, t: Tree)
    requires RedFocus(ctx, t) && Clash(ctx)
    ensures ctx.InRight? ==>
      var p := RotL(Fill(ctx, t));
      var c := InLeft(p.item, p.color, p.right, ctx.up);
      Fill(c, p.left) == p && RedFocus(c, p.left) && Clash(c) && Sequence(c, p.left) == Sequence(ctx, t)
    ensures ctx.InLeft? ==>
      var p := RotR(Fill(ctx, t));
      var c := InRight(p.item, p.color, p.left, ctx.up);
      Fill(c, p.right) == p && RedFocus(c, p.right) && Clash(c) && Sequence(c, p.right) == Sequence(ctx, t)
  {
    assert IsRB(t.left) && IsRB(t.right) && BlackHeight(t.left) == BlackHeight(t) == BlackHeight(t.right);
    FillSequence(ctx, t);
    if ctx.InRight? {
      RotLInOrder(Fill(ctx, t));
      var p := RotL(Fill(ctx, t));
      FillSequence(InLeft(p.item, p.color, p.right, ctx.up), p.left);
    } else {
      RotRInOrder(Fill(ctx, t));
      var p := RotR(Fill(ctx, t));
      FillSequence(InRight(p.item, p.color, p.left, ctx.up), p.right);
    }
  }

  /** Black parent over red grandparent, before the last rotation. */
  ghost function Repaint(ctx: Ctx, t: Tree): Tree
    requires !ctx.Top? && !ctx.up.Top?
  {
    Recolor(Fill(ctx.up, Recolor(Fill(ctx, t), Black)), Red)
  }

  /** Clash on the outer side under a black uncle: repainting and turning the grandparent
      ends it. */
  lemma TurnOuter(ctx: Ctx, t: Tree)
    requires RedFocus(ctx, t) && Clash(ctx) && !IsRed(ctx.up.sib)
    ensures ctx.InLeft? && ctx.up.InLeft? ==>
      var g := RotR(Repaint(ctx, t));
      var c := InLeft(g.item, g.color, g.right, ctx.up.up);
      Fill(c, t) == g && RedFocus(c, t) && !Clash(c) && Sequence(c, t) == Sequence(ctx, t)
    ensures ctx.InRight? && ctx.up.InRight? ==>
      var g := RotL(Repaint(ctx, t));
      var c := InRight(g.item, g.color, g.left, ctx.up.up);
      Fill(c, t) == g && RedFocus(c, t) && !Clash(c) && Sequence(c, t) == Sequence(ctx, t)
  {
    assert CtxRB(ctx.up, BlackHeight(t));
    var p := Fill(ctx, t);
    var g := Repaint(ctx, t);
    FillSequence(ctx, t);
    FillSequence(ctx.up, p);
    assert InOrder(Recolor(p, Black)) == InOrder(p);
    assert InOrder(g) == InOrder(Fill(ctx.up, p));
    if ctx.InLeft? && ctx.up.InLeft? {
      RotRInOrder(g);
      var r := RotR(g);
      FillSequence(InLeft(r.item, r.color, r.right, ctx.up.up), t);
    }
    if ctx.InRight? && ctx.up.InRight? {
      RotLInOrder(g);
      var r := RotL(g);
      FillSequence(InRight(r.item, r.color, r.left, ctx.up.up), t);
    }
  }

  /** The branch of the loop body in which the parent is a left child. */
  method FixLeft(node0: RbNode, parent0: RbNode, gparent: RbNode, root: RbRoot, ghost ctx: Ctx, ghost t: Tree)
    returns (next: RbNode, ghost ctx': Ctx, ghost t': Tree)
    requires root.At(ctx, t) && RedFocus(ctx, t) && Clash(ctx) && ctx.up.InLeft?
    requires node0 == t.item && parent0 == ctx.item && gparent == ctx.up.item
    modifies root`node, root.repr`parent, root.repr`left, root.repr`right, root.repr`color
    ensures root.At(ctx', t') && RedFocus(ctx', t') && t'.Node? && next == t'.item
    ensures Sequence(ctx', t') == Sequence(ctx, t) && Depth(ctx') < Depth(ctx)
  {
    hide RbRoot.At, Nodes, CtxNodes, CtxRB, Balanced, NoRedRed, BlackHeight, Sequence;
    ghost var p := Fill(ctx, t);
    root.Refocus(ctx, t);
    root.Refocus(ctx.up, p);
    ghost var g := Fill(ctx.up, p);
    Surroundings(root, ctx, t);
    Surroundings(root, ctx.up, p);
    var uncle := gparent.right;
    if uncle != null && uncle.color == Red {
      FlipRaises(ctx, t);
      FlipColors(gparent, parent0, uncle, root, ctx.up.up, g);
      return gparent, ctx.up.up, Flip(g);
    }
    var node, parent := node0, parent0;
    ctx', t' := ctx, t;
    if parent.right == node {
      TurnInner(ctx, t);
      RotateLeft(parent, root, ctx.up, p);
      node, parent := parent, node;
      p := RotL(p);
      ctx', t' := InLeft(p.item, p.color, p.right, ctx.up), p.left;
    }
    TurnOuter(ctx', t');
    Paint(parent, Black, root, ctx.up, p);
    root.Refocus(ctx.up, Recolor(p, Black));
    Paint(gparent, Red, root, ctx.up.up, Fill(ctx.up, Recolor(p, Black)));
    g := Repaint(ctx', t');
    RotateRight(gparent, root, ctx.up.up, g);
    g := RotR(g);
    ctx' := InLeft(g.item, g.color, g.right, ctx.up.up);
    root.Refocus(ctx', t');
    next := node;
  }

  /** The mirror branch: the parent is a right child. */
  method FixRight(node0: RbNode, parent0: RbNode, gparent: RbNode, root: RbRoot, ghost ctx: Ctx, ghost t: Tree)
    returns (next: RbNode, ghost ctx': Ctx, ghost t': Tree)
    requires root.At(ctx, t) && RedFocus(ctx, t) && Clash(ctx) && ctx.up.InRight?
    requires node0 == t.item && parent0 == ctx.item && gparent == ctx.up.item
    modifies root`node, root.repr`parent, root.repr`left, root.repr`right, root.repr`color
    ensures root.At(ctx', t') && RedFocus(ctx', t') && t'.Node? && next == t'.item
    ensures Sequence(ctx', t') == Sequence(ctx, t) && Depth(ctx') < Depth(ctx)
  {
    hide RbRoot.At, Nodes, CtxNodes, CtxRB, Balanced, NoRedRed, BlackHeight, Sequence;
    ghost var p := Fill(ctx, t);
    root.Refocus(ctx, t);
    root.Refocus(ctx.up, p);
    ghost var g := Fill(ctx.up, p);
    Surroundings(root, ctx, t);
    Surroundings(root, ctx.up, p);
    var uncle := gparent.left;
    if uncle != null && uncle.color == Red {
      FlipRaises(ctx, t);
      FlipColors(gparent, parent0, uncle, root, ctx.up.up, g);
      return gparent, ctx.up.up, Flip(g);
    }
    var node, parent := node0, parent0;
    ctx', t' := ctx, t;
    if parent.left == node {
      TurnInner(ctx, t);
      RotateRight(parent, root, ctx.up, p);
      node, parent := parent, node;
      p := RotR(p);
      ctx', t' := InRight(p.item, p.color, p.left, ctx.up), p.right;
    }
    TurnOuter(ctx', t');
    Paint(parent, Black, root, ctx.up, p);
    root.Refocus(ctx.up, Recolor(p, Black));
    Paint(gparent, Red, root, ctx.up.up, Fill(ctx.up, Recolor(p, Black)));
    g := Repaint(ctx', t');
    RotateLeft(gparent, root, ctx.up.up, g);
    g := RotL(g);
    ctx' := InRight(g.item, g.color, g.left, ctx.up.up);
    root.Refocus(ctx', t');
    next := node;
  }

  lemma ClashFacts(root: RbRoot, ctx: Ctx, t: Tree)
    requires root.At(ctx, t) && RedFocus(ctx, t)
    ensures t.Node? && t.item in root.repr && t.item.parent == ParentOf(ctx)
    ensures !ctx.Top? ==> ctx.item in root.repr && ctx.item.color == ctx.color && ctx.item.parent == ParentOf(ctx.up)
    ensures Clash(ctx) ==> !ctx.up.Top? && ctx.up.item in root.repr && (ctx.up.item.left == ctx.item <==> ctx.up.InLeft?)
  {
    FocusFacts(root, ctx, t);
    if !ctx.Top? {
      Surroundings(root, ctx, t);
      if ctx.color.Red? {
        root.Refocus(ctx, t);
        Surroundings(root, ctx.up, Fill(ctx, t));
      }
    }
  }

  /** The whole tree, with its root painted black at the end. */
  lemma BlackenRoot(ctx: Ctx, t: Tree)
    requires RedFocus(ctx, t) && !Clash(ctx)
    ensures var w := Plug(ctx, t); w.Node? && IsRB(Recolor(w, Black)) && InOrder(Recolor(w, Black)) == Sequence(ctx, t)
  {
    PlugNodes(ctx, t);
    assert Plug(ctx, t).Node? by { assert t.item in Nodes(t); }
    if ctx.Top? {
    } else {
      PlugIsRB(ctx, t);
    }
  }

  /** root->rb_node->rb_color = RB_BLACK */
  method BlackenTop(root: RbRoot, ghost ctx: Ctx, ghost t: Tree)
    requires root.At(ctx, t) && RedFocus(ctx, t) && !Clash(ctx)
    modifies root`tree, root.repr`color
    ensures root.Valid() && InOrder(root.tree) == Sequence(ctx, t)
  {
    hide RbRoot.At, RedFocus, Sequence, Nodes;
    BlackenRoot(ctx, t);
    ComposeTop(ctx);
    root.RefocusAll(ctx, Top, t);
    ghost var w := Plug(ctx, t);
    root.RootIsThere(w);
    FocusFacts(root, Top, w);
    Paint(root.node, Black, root, Top, w);
    root.tree := Recolor(w, Black);
  }

  /** rb_insert_color: `node` has just been linked in red at the place (ctx, t).  Afterwards
      the tree obeys all rules and lists the same nodes in the same order. */
  method InsertColor(node0: RbNode, root: RbRoot, ghost ctx0: Ctx, ghost t0: Tree)
    requires root.At(ctx0, t0) && RedFocus(ctx0, t0) && node0 == t0.item
    modifies root`node, root`tree, root.repr`parent, root.repr`left, root.repr`right, root.repr`color
    ensures root.Valid() && InOrder(root.tree) == Sequence(ctx0, t0)
  {
    hide RbRoot.At, RedFocus, Sequence, Nodes, CtxNodes;
    var node := node0;
    ghost var ctx, t := ctx0, t0;
    ClashFacts(root, ctx, t);
    while node.parent != null && node.parent.color == Red
      invariant root.At(ctx, t) && RedFocus(ctx, t) && t.Node? && node == t.item
      invariant Sequence(ctx, t) == Sequence(ctx0, t0)
      decreases Depth(ctx)
    {
      var parent := node.parent;
      ClashFacts(root, ctx, t);
      var gparent := parent.parent;
      if parent == gparent.left {
        node, ctx, t := FixLeft(node, parent, gparent, root, ctx, t);
      } else {
        node, ctx, t := FixRight(node, parent, gparent, root, ctx, t);
      }
    }
    ClashFacts(root, ctx, t);
    BlackenTop(root, ctx, t);
  }

  /** rb_link_node at a null link of a red-black tree, then rb_insert_color: the node appears
      exactly where the link was in sort order, and all rules hold again. */
  method LinkAndColor(node: RbNode, parent: RbNode?, link: Link, root: RbRoot, ghost ctx: Ctx)
    requires root.Valid() && Plug(ctx, Leaf) == root.tree
    requires parent == ParentOf(ctx) && LinkIs(link, ctx) && node !in root.repr
    modifies root`node, root`tree, root`repr
    modifies (root.repr + {node})`parent, (root.repr + {node})`left, (root.repr + {node})`right, (root.repr + {node})`color
    ensures root.Valid() && root.repr == old(root.repr) + {node}
    ensures InOrder(root.tree) == Before(ctx) + [node] + After(ctx)
  {
    hide RbRoot.At, Nodes, CtxNodes, Plug;
    ComposeTop(ctx);
    root.RefocusAll(ctx, Top, Leaf);
    RBParts(ctx, Leaf);
    FocusFacts(root, ctx, Leaf);
    LinkNode(node, parent, link, root, ctx);
    ghost var leaf := Node(Leaf, node, Red, Leaf);
    assert InOrder(leaf) == [node];
    InsertColor(node, root, ctx, leaf);
  }
}
