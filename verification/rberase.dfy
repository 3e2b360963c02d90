/** rb_erase and its fix-up __rb_erase_color. */
module RbErase {
  import opened RedBlack
  import opened RbTree

  /** The state of the fix-up: every path through the focus has one black node too few;
      everything else obeys the rules, except that the focus may be a red node below or
      above red nodes. */
  ghost predicate Deficit(ctx: Ctx, t: Tree) {
    IsRB(Blacken(t)) && CtxRB(ctx, BlackHeight(t) + 1)
  }

  ghost predicate NeedsWork(ctx: Ctx, t: Tree) { Deficit(ctx, t) && !IsRed(t) && !ctx.Top? }

  /** A subtree that fits into the context as it is. */
  ghost predicate Fits(ctx: Ctx, t: Tree) {
    IsRB(t) && CtxRB(ctx, BlackHeight(t)) && (IsRed(t) ==> !ctx.Top? && ctx.color.Black?)
  }

  /** The sibling is never null, so __rb_erase_color may read its colour. */
  lemma SiblingExists(ctx: Ctx, t: Tree)
    requires NeedsWork(ctx, t)
    ensures ctx.sib.Node? && IsRB(t) && IsRB(ctx.sib)
    ensures IsRed(ctx.sib) ==> ctx.color.Black? && ctx.sib.left.Node? && ctx.sib.right.Node?
  {
  }

  /** The context of the hole's sibling, with `t` in the hole. */
  ghost function Across(ctx: Ctx, t: Tree): Ctx
    requires !ctx.Top?
  {
    if ctx.InLeft? then InRight(ctx.item, ctx.color, t, ctx.up) else InLeft(ctx.item, ctx.color, t, ctx.up)
  }

  /** The rules for a node, spelled out for its children. */
  lemma RBKids(t: Tree)
    requires t.Node? && IsRB(t)
    ensures IsRB(t.left) && IsRB(t.right) && BlackHeight(t.left) == BlackHeight(t.right)
    ensures BlackHeight(t) == BlackHeight(t.left) + if t.color.Black? then 1 else 0
    ensures t.color.Red? ==> !IsRed(t.left) && !IsRed(t.right)
  {
  }

  ghost function WithSib(ctx: Ctx, s: Tree): Ctx
    requires !ctx.Top?
  {
    if ctx.InLeft? then InLeft(ctx.item, ctx.color, s, ctx.up) else InRight(ctx.item, ctx.color, s, ctx.up)
  }

  // ---------- what each case does to the tree ----------

  /** Red sibling, after the recolouring. */
  ghost function Case1(ctx: Ctx, t: Tree): Tree
    requires !ctx.Top? && ctx.sib.Node?
  {
    Recolor(Fill(Across(ctx, t), Recolor(ctx.sib, Black)), Red)
  }

  lemma Case1Left(ctx: Ctx, t: Tree) returns (c: Ctx)
    requires NeedsWork(ctx, t) && ctx.InLeft? && IsRed(ctx.sib)
    ensures var q := RotL(Case1(ctx, t));
      c == InLeft(ctx.item, Red, q.left.right, InLeft(q.item, q.color, q.right, ctx.up)) && Fill(c.up, Fill(c, t)) == q
    ensures NeedsWork(c, t) && !IsRed(c.sib) && c.color.Red? && Sequence(c, t) == Sequence(ctx, t)
  {
    SiblingExists(ctx, t);
    var p := Case1(ctx, t);
    var q := RotL(p);
    c := InLeft(ctx.item, Red, q.left.right, InLeft(q.item, q.color, q.right, ctx.up));
    FillSequence(ctx, t);
    assert InOrder(Fill(ctx, t)) == InOrder(p);
    RotLInOrder(p);
    FillSequence(c, t);
    FillSequence(c.up, Fill(c, t));
  }

  lemma Case1Right(ctx: Ctx, t: Tree) returns (c: Ctx)
    requires NeedsWork(ctx, t) && ctx.InRight? && IsRed(ctx.sib)
    ensures var q := RotR(Case1(ctx, t));
      c == InRight(ctx.item, Red, q.right.left, InRight(q.item, q.color, q.left, ctx.up)) && Fill(c.up, Fill(c, t)) == q
    ensures NeedsWork(c, t) && !IsRed(c.sib) && c.color.Red? && Sequence(c, t) == Sequence(ctx, t)
  {
    SiblingExists(ctx, t);
    var p := Case1(ctx, t);
    var q := RotR(p);
    c := InRight(ctx.item, Red, q.right.left, InRight(q.item, q.color, q.left, ctx.up));
    FillSequence(ctx, t);
    assert InOrder(Fill(ctx, t)) == InOrder(p);
    RotRInOrder(p);
    FillSequence(c, t);
    FillSequence(c.up, Fill(c, t));
  }

  /** Black sibling with black children: the sibling turns red, and the deficit moves up. */
  ghost function Case2(ctx: Ctx, t: Tree): Tree
    requires !ctx.Top? && ctx.sib.Node?
  {
    Fill(Across(ctx, t), Recolor(ctx.sib, Red))
  }

  lemma Case2Keeps(ctx: Ctx, t: Tree)
    requires NeedsWork(ctx, t) && ctx.sib.Node? && !IsRed(ctx.sib) && !IsRed(ctx.sib.left) && !IsRed(ctx.sib.right)
    ensures Deficit(ctx.up, Case2(ctx, t)) && Case2(ctx, t).color == ctx.color
    ensures Sequence(ctx.up, Case2(ctx, t)) == Sequence(ctx, t)
  {
    SiblingExists(ctx, t);
    var s := Recolor(ctx.sib, Red);
    assert IsRB(s) && BlackHeight(s) == BlackHeight(t);
    FillSequence(ctx, t);
    assert InOrder(Fill(ctx, t)) == InOrder(Case2(ctx, t));
  }

  /** The sibling before the inner rotation: red, above its near child painted black. */
  ghost function Case3(ctx: Ctx): Tree
    requires !ctx.Top? && ctx.sib.Node?
  {
    if ctx.InLeft? then Recolor(ctx.sib.(left := Blacken(ctx.sib.left)), Red)
    else Recolor(ctx.sib.(right := Blacken(ctx.sib.right)), Red)
  }

  lemma Case3Keeps(ctx: Ctx, t: Tree)
    requires NeedsWork(ctx, t) && ctx.sib.Node? && !IsRed(ctx.sib)
    ensures ctx.InLeft? && IsRed(ctx.sib.left) && !IsRed(ctx.sib.right) ==>
      var c := WithSib(ctx, RotR(Case3(ctx)));
      NeedsWork(c, t) && !IsRed(c.sib) && IsRed(c.sib.right) && Sequence(c, t) == Sequence(ctx, t)
    ensures ctx.InRight? && IsRed(ctx.sib.right) && !IsRed(ctx.sib.left) ==>
      var c := WithSib(ctx, RotL(Case3(ctx)));
      NeedsWork(c, t) && !IsRed(c.sib) && IsRed(c.sib.left) && Sequence(c, t) == Sequence(ctx, t)
  {
    SiblingExists(ctx, t);
    assert InOrder(Blacken(ctx.sib.left)) == InOrder(ctx.sib.left) && InOrder(Blacken(ctx.sib.right)) == InOrder(ctx.sib.right);
    assert InOrder(Case3(ctx)) == InOrder(ctx.sib);
    if ctx.InLeft? && IsRed(ctx.sib.left) && !IsRed(ctx.sib.right) {
      RotRInOrder(Case3(ctx));
      RBKids(ctx.sib);
      RBKids(ctx.sib.left);
      var s := RotR(Case3(ctx));
      assert IsRB(s.right) && IsRB(s.left) && BlackHeight(s) == BlackHeight(ctx.sib);
    }
    if ctx.InRight? && IsRed(ctx.sib.right) && !IsRed(ctx.sib.left) {
      RotLInOrder(Case3(ctx));
      RBKids(ctx.sib);
      RBKids(ctx.sib.right);
      var s := RotL(Case3(ctx));
      assert IsRB(s.right) && IsRB(s.left) && BlackHeight(s) == BlackHeight(ctx.sib);
    }
  }

  /** The parent's subtree before the last rotation. */
  ghost function Case4(ctx: Ctx, t: Tree): Tree
    requires !ctx.Top? && ctx.sib.Node?
  {
    var s := if ctx.InLeft? then ctx.sib.(right := Blacken(ctx.sib.right)) else ctx.sib.(left := Blacken(ctx.sib.left));
    Recolor(Fill(Across(ctx, t), Recolor(s, ctx.color)), Black)
  }

  lemma Case4Ends(ctx: Ctx, t: Tree)
    requires NeedsWork(ctx, t) && ctx.sib.Node? && !IsRed(ctx.sib)
    ensures ctx.InLeft? && IsRed(ctx.sib.right) ==>
      Fits(ctx.up, RotL(Case4(ctx, t))) && Sequence(ctx.up, RotL(Case4(ctx, t))) == Sequence(ctx, t)
    ensures ctx.InRight? && IsRed(ctx.sib.left) ==>
      Fits(ctx.up, RotR(Case4(ctx, t))) && Sequence(ctx.up, RotR(Case4(ctx, t))) == Sequence(ctx, t)
  {
    SiblingExists(ctx, t);
    FillSequence(ctx, t);
    assert InOrder(Blacken(ctx.sib.left)) == InOrder(ctx.sib.left) && InOrder(Blacken(ctx.sib.right)) == InOrder(ctx.sib.right);
    assert InOrder(Fill(ctx, t)) == InOrder(Case4(ctx, t));
    if ctx.InLeft? && IsRed(ctx.sib.right) {
      RotLInOrder(Case4(ctx, t));
      RBKids(ctx.sib);
      RBKids(ctx.sib.right);
      var q := RotL(Case4(ctx, t));
      assert IsRB(q.left) && IsRB(q.right) && BlackHeight(q.left) == BlackHeight(q.right) == BlackHeight(t) + 1;
    }
    if ctx.InRight? && IsRed(ctx.sib.left) {
      RotRInOrder(Case4(ctx, t));
      RBKids(ctx.sib);
      RBKids(ctx.sib.left);
      var q := RotR(Case4(ctx, t));
      assert IsRB(q.left) && IsRB(q.right) && BlackHeight(q.left) == BlackHeight(q.right) == BlackHeight(t) + 1;
    }
  }

  // ---------- the heap side of each case ----------

  /** Seen from the hole or from its sibling: the same heap. */
  lemma Cross(root: RbRoot, ctx: Ctx, t: Tree)
    requires !ctx.Top?
    ensures root.At(ctx, t) <==> root.At(Across(ctx, t), ctx.sib)
  {
    root.Refocus(ctx, t);
    root.Refocus(Across(ctx, t), ctx.sib);
  }

  method RedSiblingLeft(parent: RbNode, other: RbNode, root: RbRoot, ghost ctx: Ctx, ghost t: Tree)
    returns (ghost c: Ctx)
    requires root.At(ctx, t) && NeedsWork(ctx, t) && ctx.InLeft? && IsRed(ctx.sib)
    requires parent == ctx.item && other == ctx.sib.item
    modifies root`node, root.repr`parent, root.repr`left, root.repr`right, root.repr`color
    ensures root.At(c, t) && NeedsWork(c, t) && c.InLeft? && c.item == parent && c.color.Red? && !IsRed(c.sib)
    ensures Sequence(c, t) == Sequence(ctx, t)
  {
    hide RbRoot.At, Sequence, NeedsWork;
    SiblingExists(ctx, t);
    Surroundings(root, ctx, t);
    c := Case1Left(ctx, t);
    Cross(root, ctx, t);
    ghost var across := Across(ctx, t);
    Paint(other, Black, root, across, ctx.sib);
    root.Refocus(across, Recolor(ctx.sib, Black));
    Paint(parent, Red, root, ctx.up, Fill(across, Recolor(ctx.sib, Black)));
    ghost var p := Case1(ctx, t);
    RotateLeft(parent, root, ctx.up, p);
    root.Refocus(c.up, Fill(c, t));
    root.Refocus(c, t);
  }

  method RedSiblingRight(parent: RbNode, other: RbNode, root: RbRoot, ghost ctx: Ctx, ghost t: Tree)
    returns (ghost c: Ctx)
    requires root.At(ctx, t) && NeedsWork(ctx, t) && ctx.InRight? && IsRed(ctx.sib)
    requires parent == ctx.item && other == ctx.sib.item
    modifies root`node, root.repr`parent, root.repr`left, root.repr`right, root.repr`color
    ensures root.At(c, t) && NeedsWork(c, t) && c.InRight? && c.item == parent && c.color.Red? && !IsRed(c.sib)
    ensures Sequence(c, t) == Sequence(ctx, t)
  {
    hide RbRoot.At, Sequence, NeedsWork;
    SiblingExists(ctx, t);
    Surroundings(root, ctx, t);
    c := Case1Right(ctx, t);
    Cross(root, ctx, t);
    ghost var across := Across(ctx, t);
    Paint(other, Black, root, across, ctx.sib);
    root.Refocus(across, Recolor(ctx.sib, Black));
    Paint(parent, Red, root, ctx.up, Fill(across, Recolor(ctx.sib, Black)));
    ghost var p := Case1(ctx, t);
    RotateRight(parent, root, ctx.up, p);
    root.Refocus(c.up, Fill(c, t));
    root.Refocus(c, t);
  }

  /** Both nephews black: repaint the sibling, move to the parent. */
  method BlackNephews(other: RbNode, root: RbRoot, ghost ctx: Ctx, ghost t: Tree)
    requires root.At(ctx, t) && NeedsWork(ctx, t) && other == Root(ctx.sib)
    requires ctx.sib.Node? && !IsRed(ctx.sib) && !IsRed(ctx.sib.left) && !IsRed(ctx.sib.right)
    modifies root.repr`color
    ensures root.At(ctx.up, Case2(ctx, t)) && Deficit(ctx.up, Case2(ctx, t)) && Case2(ctx, t).color == ctx.color
    ensures Sequence(ctx.up, Case2(ctx, t)) == Sequence(ctx, t)
  {
    hide RbRoot.At, Sequence;
    Surroundings(root, ctx, t);
    Case2Keeps(ctx, t);
    Cross(root, ctx, t);
    Paint(other, Red, root, Across(ctx, t), ctx.sib);
    root.Refocus(Across(ctx, t), Recolor(ctx.sib, Red));
  }

  method NearNephewLeft(other: RbNode, root: RbRoot, ghost ctx: Ctx, ghost t: Tree) returns (ghost c: Ctx)
    requires root.At(ctx, t) && NeedsWork(ctx, t) && ctx.InLeft? && other == Root(ctx.sib)
    requires ctx.sib.Node? && !IsRed(ctx.sib) && IsRed(ctx.sib.left) && !IsRed(ctx.sib.right)
    modifies root`node, root.repr`parent, root.repr`left, root.repr`right, root.repr`color
    ensures root.At(c, t) && NeedsWork(c, t) && c.InLeft? && c.item == ctx.item && c.color == ctx.color && c.up == ctx.up
    ensures c.sib.Node? && !IsRed(c.sib) && IsRed(c.sib.right) && Sequence(c, t) == Sequence(ctx, t)
  {
    hide RbRoot.At, Sequence, NeedsWork;
    Surroundings(root, ctx, t);
    Case3Keeps(ctx, t);
    Cross(root, ctx, t);
    c := WithSib(ctx, RotR(Case3(ctx)));
    ghost var across, s := Across(ctx, t), ctx.sib;
    ghost var near := InLeft(s.item, s.color, s.right, across);
    root.Refocus(near, s.left);
    var oLeft := other.left;
    if oLeft != null {
      Paint(oLeft, Black, root, near, s.left);
    }
    root.Refocus(near, Blacken(s.left));
    Paint(other, Red, root, across, Fill(near, Blacken(s.left)));
    RotateRight(other, root, across, Case3(ctx));
    Cross(root, c, t);
  }

  method NearNephewRight(other: RbNode, root: RbRoot, ghost ctx: Ctx, ghost t: Tree) returns (ghost c: Ctx)
    requires root.At(ctx, t) && NeedsWork(ctx, t) && ctx.InRight? && other == Root(ctx.sib)
    requires ctx.sib.Node? && !IsRed(ctx.sib) && IsRed(ctx.sib.right) && !IsRed(ctx.sib.left)
    modifies root`node, root.repr`parent, root.repr`left, root.repr`right, root.repr`color
    ensures root.At(c, t) && NeedsWork(c, t) && c.InRight? && c.item == ctx.item && c.color == ctx.color && c.up == ctx.up
    ensures c.sib.Node? && !IsRed(c.sib) && IsRed(c.sib.left) && Sequence(c, t) == Sequence(ctx, t)
  {
    hide RbRoot.At, Sequence, NeedsWork;
    Surroundings(root, ctx, t);
    Case3Keeps(ctx, t);
    Cross(root, ctx, t);
    c := WithSib(ctx, RotL(Case3(ctx)));
    ghost var across, s := Across(ctx, t), ctx.sib;
    ghost var near := InRight(s.item, s.color, s.left, across);
    root.Refocus(near, s.right);
    var oRight := other.right;
    if oRight != null {
      Paint(oRight, Black, root, near, s.right);
    }
    root.Refocus(near, Blacken(s.right));
    Paint(other, Red, root, across, Fill(near, Blacken(s.right)));
    RotateLeft(other, root, across, Case3(ctx));
    Cross(root, c, t);
  }

  method FarNephewLeft(parent: RbNode, other: RbNode, root: RbRoot, ghost ctx: Ctx, ghost t: Tree)
    requires root.At(ctx, t) && NeedsWork(ctx, t) && ctx.InLeft? && parent == ctx.item && other == Root(ctx.sib)
    requires ctx.sib.Node? && !IsRed(ctx.sib) && IsRed(ctx.sib.right)
    modifies root`node, root.repr`parent, root.repr`left, root.repr`right, root.repr`color
    ensures var r := RotL(Case4(ctx, t));
      root.At(ctx.up, r) && Fits(ctx.up, r) && Sequence(ctx.up, r) == Sequence(ctx, t)
  {
    hide RbRoot.At, Sequence, NeedsWork, Fits;
    Surroundings(root, ctx, t);
    Case4Ends(ctx, t);
    Cross(root, ctx, t);
    ghost var s, s1 := ctx.sib, Recolor(ctx.sib, ctx.color);
    ghost var across := InRight(parent, Black, t, ctx.up);
    ghost var far := InRight(s.item, ctx.color, s.left, across);
    var oRight := other.right;
    Paint(other, parent.color, root, Across(ctx, t), s);
    root.Refocus(Across(ctx, t), s1);
    Paint(parent, Black, root, ctx.up, Fill(Across(ctx, t), s1));
    root.Refocus(across, s1);
    root.Refocus(far, s.right);
    if oRight != null {
      Paint(oRight, Black, root, far, s.right);
    }
    root.Refocus(far, Blacken(s.right));
    root.Refocus(across, Fill(far, Blacken(s.right)));
    RotateLeft(parent, root, ctx.up, Case4(ctx, t));
  }

  method FarNephewRight(parent: RbNode, other: RbNode, root: RbRoot, ghost ctx: Ctx, ghost t: Tree)
    requires root.At(ctx, t) && NeedsWork(ctx, t) && ctx.InRight? && parent == ctx.item && other == Root(ctx.sib)
    requires ctx.sib.Node? && !IsRed(ctx.sib) && IsRed(ctx.sib.left)
    modifies root`node, root.repr`parent, root.repr`left, root.repr`right, root.repr`color
    ensures var r := RotR(Case4(ctx, t));
      root.At(ctx.up, r) && Fits(ctx.up, r) && Sequence(ctx.up, r) == Sequence(ctx, t)
  {
    hide RbRoot.At, Sequence, NeedsWork, Fits;
    Surroundings(root, ctx, t);
    Case4Ends(ctx, t);
    Cross(root, ctx, t);
    ghost var s, s1 := ctx.sib, Recolor(ctx.sib, ctx.color);
    ghost var across := InLeft(parent, Black, t, ctx.up);
    ghost var far := InLeft(s.item, ctx.color, s.right, across);
    var oLeft := other.left;
    Paint(other, parent.color, root, Across(ctx, t), s);
    root.Refocus(Across(ctx, t), s1);
    Paint(parent, Black, root, ctx.up, Fill(Across(ctx, t), s1));
    root.Refocus(across, s1);
    root.Refocus(far, s.left);
    if oLeft != null {
      Paint(oLeft, Black, root, far, s.left);
    }
    root.Refocus(far, Blacken(s.left));
    root.Refocus(across, Fill(far, Blacken(s.left)));
    RotateRight(parent, root, ctx.up, Case4(ctx, t));
  }

  // ---------- __rb_erase_color ----------

  lemma {:induction false} RootAboveHole(root: RbRoot, ctx: Ctx, hole: RbNode?)
    requires root.CtxShape(ctx, hole) && !ctx.Top?
    ensures root.node != null && root.node in CtxNodes(ctx)
    decreases ctx
  {
    if !ctx.up.Top? { RootAboveHole(root, ctx.up, ctx.item); }
  }

  lemma WhereIsRoot(root: RbRoot, ctx: Ctx, t: Tree)
    requires root.At(ctx, t)
    ensures root.node == Root(t) <==> ctx.Top?
    ensures t.Node? ==> t.item in root.repr && t.item.color == t.color
  {
    if !ctx.Top? { RootAboveHole(root, ctx, Root(t)); }
    assert t.Node? ==> t.item in Nodes(t);
  }

  /** Climbing is measured by depth; a red focus is the end. */
  ghost function Remaining(ctx: Ctx, t: Tree): nat { if IsRed(t) then 0 else 1 + Depth(ctx) }

  /** A subtree that fits makes the whole tree a red-black tree. */
  lemma FitsWhole(root: RbRoot, ctx: Ctx, t: Tree)
    requires root.At(ctx, t) && Fits(ctx, t)
    ensures var w := Plug(ctx, t); root.At(Top, w) && IsRB(w) && !IsRed(w) && Sequence(Top, w) == Sequence(ctx, t)
  {
    PlugNodes(ctx, t);
    PlugIsRB(ctx, t);
    ComposeTop(ctx);
    root.RefocusAll(ctx, Top, t);
  }

  /** A black sibling with a red nephew: the fix-up ends here. */
  method ResolveLeft(parent: RbNode, other0: RbNode, root: RbRoot, ghost ctx: Ctx, ghost t: Tree) returns (ghost w: Tree)
    requires root.At(ctx, t) && NeedsWork(ctx, t) && ctx.InLeft? && parent == ctx.item && other0 == Root(ctx.sib)
    requires ctx.sib.Node? && !IsRed(ctx.sib) && (IsRed(ctx.sib.left) || IsRed(ctx.sib.right))
    modifies root`node, root.repr`parent, root.repr`left, root.repr`right, root.repr`color
    ensures root.At(Top, w) && root.node == Root(w) && IsRB(w) && !IsRed(w) && Sequence(Top, w) == Sequence(ctx, t)
  {
    hide RbRoot.At, NeedsWork, Fits, Sequence;
    Surroundings(root, ctx, t);
    ghost var c := ctx;
    var other := other0;
    if other.right == null || other.right.color == Black {
      c := NearNephewLeft(other, root, c, t);
      Surroundings(root, c, t);
      other := parent.right;
    }
    FarNephewLeft(parent, other, root, c, t);
    FitsWhole(root, c.up, RotL(Case4(c, t)));
    w := Plug(c.up, RotL(Case4(c, t)));
    root.RootIsThere(w);
  }

  /** The branch of the loop body in which `node` is a left child.  `more` is false when the
      source breaks out of the loop. */
  method EraseLeft(node: RbNode?, parent: RbNode, root: RbRoot, ghost ctx: Ctx, ghost t: Tree)
    returns (more: bool, node': RbNode?, parent': RbNode?, ghost ctx': Ctx, ghost t': Tree)
    requires root.At(ctx, t) && NeedsWork(ctx, t) && ctx.InLeft? && parent == ctx.item && node == Root(t)
    modifies root`node, root.repr`parent, root.repr`left, root.repr`right, root.repr`color
    ensures root.At(ctx', t') && node' == Root(t') && Sequence(ctx', t') == Sequence(ctx, t)
    ensures more ==> Deficit(ctx', t') && parent' == ParentOf(ctx') && Remaining(ctx', t') < Remaining(ctx, t)
    ensures !more ==> ctx'.Top? && IsRB(t') && !IsRed(t')
  {
    hide RbRoot.At, Deficit, Fits, CtxRB, Balanced, NoRedRed, BlackHeight, Sequence, Nodes;
    SiblingExists(ctx, t);
    Surroundings(root, ctx, t);
    ghost var c := ctx;
    var other := parent.right;
    if other.color == Red {
      c := RedSiblingLeft(parent, other, root, ctx, t);
      SiblingExists(c, t);
      Surroundings(root, c, t);
      other := parent.right;
    }
    if (other.left == null || other.left.color == Black) && (other.right == null || other.right.color == Black) {
      BlackNephews(other, root, c, t);
      WhereIsRoot(root, c.up, Case2(c, t));
      StoredParent(root, c.up, Case2(c, t));
      return true, parent, parent.parent, c.up, Case2(c, t);
    }
    t' := ResolveLeft(parent, other, root, c, t);
    return false, root.node, parent, Top, t';
  }

  lemma StoredParent(root: RbRoot, ctx: Ctx, t: Tree)
    requires root.At(ctx, t)
    ensures t.Node? ==> t.item.parent == ParentOf(ctx)
  {
  }

  /** A black sibling with a red nephew: the fix-up ends here. */
  method ResolveRight(parent: RbNode, other0: RbNode, root: RbRoot, ghost ctx: Ctx, ghost t: Tree) returns (ghost w: Tree)
    requires root.At(ctx, t) && NeedsWork(ctx, t) && ctx.InRight? && parent == ctx.item && other0 == Root(ctx.sib)
    requires ctx.sib.Node? && !IsRed(ctx.sib) && (IsRed(ctx.sib.left) || IsRed(ctx.sib.right))
    modifies root`node, root.repr`parent, root.repr`left, root.repr`right, root.repr`color
    ensures root.At(Top, w) && root.node == Root(w) && IsRB(w) && !IsRed(w) && Sequence(Top, w) == Sequence(ctx, t)
  {
    hide RbRoot.At, NeedsWork, Fits, Sequence;
    Surroundings(root, ctx, t);
    ghost var c := ctx;
    var other := other0;
    if other.left == null || other.left.color == Black {
      c := NearNephewRight(other, root, c, t);
      Surroundings(root, c, t);
      other := parent.left;
    }
    FarNephewRight(parent, other, root, c, t);
    FitsWhole(root, c.up, RotR(Case4(c, t)));
    w := Plug(c.up, RotR(Case4(c, t)));
    root.RootIsThere(w);
  }

  method EraseRight(node: RbNode?, parent: RbNode, root: RbRoot, ghost ctx: Ctx, ghost t: Tree)
    returns (more: bool, node': RbNode?, parent': RbNode?, ghost ctx': Ctx, ghost t': Tree)
    requires root.At(ctx, t) && NeedsWork(ctx, t) && ctx.InRight? && parent == ctx.item && node == Root(t)
    modifies root`node, root.repr`parent, root.repr`left, root.repr`right, root.repr`color
    ensures root.At(ctx', t') && node' == Root(t') && Sequence(ctx', t') == Sequence(ctx, t)
    ensures more ==> Deficit(ctx', t') && parent' == ParentOf(ctx') && Remaining(ctx', t') < Remaining(ctx, t)
    ensures !more ==> ctx'.Top? && IsRB(t') && !IsRed(t')
  {
    hide RbRoot.At, Deficit, Fits, CtxRB, Balanced, NoRedRed, BlackHeight, Sequence, Nodes;
    SiblingExists(ctx, t);
    Surroundings(root, ctx, t);
    ghost var c := ctx;
    var other := parent.left;
    if other.color == Red {
      c := RedSiblingRight(parent, other, root, ctx, t);
      SiblingExists(c, t);
      Surroundings(root, c, t);
      other := parent.left;
    }
    if (other.left == null || other.left.color == Black) && (other.right == null || other.right.color == Black) {
      BlackNephews(other, root, c, t);
      WhereIsRoot(root, c.up, Case2(c, t));
      StoredParent(root, c.up, Case2(c, t));
      return true, parent, parent.parent, c.up, Case2(c, t);
    }
    t' := ResolveRight(parent, other, root, c, t);
    return false, root.node, parent, Top, t';
  }

  /** What is left to do after the loop: paint the focus black. */
  lemma EraseEnds(ctx: Ctx, t: Tree)
    requires Deficit(ctx, t) && (IsRed(t) || ctx.Top?)
    ensures Fits(ctx, Blacken(t)) && Sequence(ctx, Blacken(t)) == Sequence(ctx, t)
  {
    assert InOrder(Blacken(t)) == InOrder(t);
  }

  /** `node` is the root of the subtree whose paths lack a black node. */
  method EraseColor(node0: RbNode?, parent0: RbNode?, root: RbRoot, ghost ctx0: Ctx, ghost t0: Tree)
    requires root.At(ctx0, t0) && Deficit(ctx0, t0) && node0 == Root(t0) && parent0 == ParentOf(ctx0)
    modifies root`node, root`tree, root.repr`parent, root.repr`left, root.repr`right, root.repr`color
    ensures root.Valid() && InOrder(root.tree) == Sequence(ctx0, t0)
  {
    hide RbRoot.At, CtxRB, Balanced, NoRedRed, BlackHeight, Sequence, Nodes, Fits, Deficit;
    var node, parent, more := node0, parent0, true;
    ghost var ctx, t := ctx0, t0;
    WhereIsRoot(root, ctx, t);
    while more && (node == null || node.color == Black) && node != root.node
      invariant root.At(ctx, t) && node == Root(t) && Sequence(ctx, t) == Sequence(ctx0, t0)
      invariant more ==> Deficit(ctx, t) && parent == ParentOf(ctx)
      invariant !more ==> ctx.Top? && IsRB(t) && !IsRed(t)
      decreases more, Remaining(ctx, t)
    {
      WhereIsRoot(root, ctx, t);
      Surroundings(root, ctx, t);
      SiblingExists(ctx, t);
      if parent.left == node {
        more, node, parent, ctx, t := EraseLeft(node, parent, root, ctx, t);
      } else {
        more, node, parent, ctx, t := EraseRight(node, parent, root, ctx, t);
      }
    }
    WhereIsRoot(root, ctx, t);
    if more {
      EraseEnds(ctx, t);
    } else {
      BlackTop(t);
    }
    if node != null {
      Paint(node, Black, root, ctx, t);
    }
    Conclude(root, ctx, Blacken(t));
    root.tree := Plug(ctx, Blacken(t));
  }

  lemma BlackTop(t: Tree)
    requires IsRB(t) && !IsRed(t)
    ensures Blacken(t) == t && Fits(Top, t)
  {
  }

  lemma Conclude(root: RbRoot, ctx: Ctx, t: Tree)
    requires root.At(ctx, t) && Fits(ctx, t)
    ensures var w := Plug(ctx, t);
      root.At(Top, w) && root.repr == Nodes(w) && IsRB(w) && !IsRed(w) && InOrder(w) == Sequence(ctx, t)
  {
    FitsWhole(root, ctx, t);
    root.RootIsThere(Plug(ctx, t));
    assert Sequence(Top, Plug(ctx, t)) == InOrder(Plug(ctx, t));
  }

  // ---------- rb_erase ----------

  /** The only child of a node that has at most one. */
  ghost function OnlyChild(t: Tree): Tree
    requires t.Node?
  {
    if t.left.Leaf? then t.right else t.left
  }

  /** Cutting out a node with at most one child: a red one leaves a red-black tree, a black
      one a deficit. */
  lemma CutRB(ctx: Ctx, t: Tree)
    requires t.Node? && (t.left.Leaf? || t.right.Leaf?)
    requires IsRB(t) && CtxRB(ctx, BlackHeight(t)) && (IsRed(t) ==> !ctx.Top? && ctx.color.Black?)
    ensures t.color.Black? ==> Deficit(ctx, OnlyChild(t))
    ensures t.color.Red? ==> Fits(ctx, OnlyChild(t))
  {
    RBKids(t);
    if OnlyChild(t).Node? { RBKids(OnlyChild(t)); }
  }

  lemma CutFacts(root: RbRoot, ctx: Ctx, t: Tree)
    requires root.At(ctx, t) && t.Node? && (t.left.Leaf? || t.right.Leaf?)
    ensures var c := OnlyChild(t);
      Apart(ctx, c) && Nodes(t) == Nodes(c) + {t.item} && t.item !in Nodes(c) && t.item !in CtxNodes(ctx)
      && (c.Node? ==> c.item in Nodes(c) && c.item !in Below(c) && c.item !in CtxNodes(ctx))
      && Shape(c) && Kids(c) && Colored(c) && Root(c) == (if t.left.Leaf? then t.item.right else t.item.left)
  {
    var c := OnlyChild(t);
    assert Distinct(c) && Shape(c);
    assert c.Node? ==> c.item in Nodes(c);
  }

  /** Repeated in rb_erase: link `child` in place of `node`. */
  method Cut(node: RbNode, child: RbNode?, parent: RbNode?, root: RbRoot, ghost ctx: Ctx, ghost t: Tree)
    requires root.At(ctx, t) && t.Node? && t.item == node && (t.left.Leaf? || t.right.Leaf?)
    requires child == Root(OnlyChild(t)) && parent == ParentOf(ctx)
    modifies root`node, root`repr, (root.repr - {node})`parent, (root.repr - {node})`left, (root.repr - {node})`right
    ensures root.At(ctx, OnlyChild(t)) && root.repr == old(root.repr) - {node}
  {
    hide Nodes, CtxNodes, DistinctCtx, Distinct, Shape, Colored, RbRoot.CtxShape, CtxColored, CtxKids;
    FocusFacts(root, ctx, t);
    CutFacts(root, ctx, t);
    if child != null {
      child.parent := parent;
    }
    root.repr := root.repr - {node};
    assert root.CtxStored(ctx, node);
    assert Stored(OnlyChild(t), parent);
    ReplaceChild(parent, node, child, root, ctx, OnlyChild(t));
  }

  /** `node`, already cut out, gets the fields of `old_`, and the children of `old_`. */
  method TakeFields(old_: RbNode, node: RbNode, ghost t: Tree)
    requires t.Node? && t.item == old_ && t.left.Node?
    requires Shape(t) && Kids(t) && Colored(t) && old_ != node && Outside(node, t.left) && Outside(node, t.right)
    requires t.left.item != old_ && t.left.item !in Below(t.left) && Outside(t.left.item, t.right)
    requires t.right.Node? ==>
      t.right.item != old_ && t.right.item !in Below(t.right) && Outside(t.right.item, t.left) && t.right.item != t.left.item
    modifies node`parent, node`left, node`right, node`color, t.left.item`parent
    modifies (if t.right.Node? then {t.right.item} else {})`parent
    ensures Stored(t.(item := node), old(old_.parent))
  {
    hide Nodes, Below;
    ghost var l, r := t.left, t.right;
    node.parent := old_.parent;
    node.color := old_.color;
    node.right := old_.right;
    node.left := old_.left;
    old_.left.parent := node;
    if old_.right != null {
      old_.right.parent := node;
    }
    assert Shape(l) && Shape(r) && Colored(l) && Colored(r);
    assert Kids(l) && Kids(r);
  }

  /** In rb_erase: `node`, already cut out, takes over the position of `old_` (fields, link
      from the parent, children's parent pointers). */
  method TakePlace(old_: RbNode, node: RbNode, root: RbRoot, ghost ctx: Ctx, ghost t: Tree)
    requires root.At(ctx, t) && t.Node? && t.item == old_ && t.left.Node? && node !in root.repr
    modifies root`node, root`repr, node`parent, node`left, node`right, node`color
    modifies root.repr`parent, (root.repr - {old_})`left, (root.repr - {old_})`right
    ensures root.At(ctx, t.(item := node)) && root.repr == old(root.repr) - {old_} + {node}
  {
    hide Nodes, CtxNodes, DistinctCtx, Distinct, RbRoot.CtxShape, CtxColored, CtxKids, Shape, Kids, Colored;
    FocusFacts(root, ctx, t);
    PlaceFacts(root, ctx, t, node);
    assert allocated(CtxNodes(ctx));
    var parent := old_.parent;
    TakeFields(old_, node, t);
    root.repr := root.repr - {old_} + {node};
    ReplaceChild(parent, old_, node, root, ctx, t.(item := node));
  }

  lemma PlaceFacts(root: RbRoot, ctx: Ctx, t: Tree, node: RbNode)
    requires root.At(ctx, t) && t.Node? && node !in root.repr
    ensures var l, r, o := t.left, t.right, t.item; var t' := t.(item := node);
      Apart(ctx, t') && Nodes(t') == Nodes(t) - {o} + {node} && root.repr - {o} + {node} == Nodes(t') + CtxNodes(ctx)
      && o != node && Outside(node, l) && Outside(node, r) && node !in CtxNodes(ctx) && Outside(o, l) && Outside(o, r) && o !in CtxNodes(ctx)
      && Shape(l) && Shape(r) && Kids(l) && Kids(r)
      && (l.Node? ==> l.item in root.repr && l.item != o && l.item != node && Outside(l.item, r) && l.item !in Below(l) && l.item !in CtxNodes(ctx))
      && (r.Node? ==> r.item in root.repr && r.item != o && r.item != node && r.item != Root(l) && Outside(r.item, l) && r.item !in Below(r) && r.item !in CtxNodes(ctx))
  {
    var l, r := t.left, t.right;
    assert Distinct(l) && Distinct(r);
    assert l.Node? ==> l.item in Nodes(l);
    assert r.Node? ==> r.item in Nodes(r);
  }

  /** A path that only goes left. */
  ghost predicate Leftmost(spine: Ctx) {
    spine.Top? || (spine.InLeft? && Leftmost(spine.up))
  }

  lemma {:induction false} LeftmostBefore(spine: Ctx)
    requires Leftmost(spine)
    ensures Before(spine) == []
  {
    if !spine.Top? { LeftmostBefore(spine.up); }
  }

  /** The rules do not look at which node sits in a frame. */
  lemma {:induction false} CtxRBRename(spine: Ctx, base: Ctx, base': Ctx, h: nat)
    requires base.InRight? && base'.InRight? && base.color == base'.color && base.sib == base'.sib && base.up == base'.up
    ensures CtxRB(Compose(spine, base), h) <==> CtxRB(Compose(spine, base'), h)
    ensures !Compose(spine, base).Top? && !Compose(spine, base').Top?
    ensures Compose(spine, base).color == Compose(spine, base').color
    decreases spine
  {
    if !spine.Top? {
      CtxRBRename(spine.up, base, base', if spine.color.Black? then h + 1 else h);
    }
  }

  /** The successor search: from the right child of `old_` left as far as possible. */
  method Successor(old_: RbNode, root: RbRoot, ghost ctx: Ctx, ghost t: Tree)
    returns (node: RbNode, ghost spine: Ctx, ghost s: Tree)
    requires root.At(ctx, t) && t.Node? && t.item == old_ && t.left.Node? && t.right.Node?
    ensures var base := InRight(old_, t.color, t.left, ctx);
      root.At(Compose(spine, base), s) && Plug(spine, s) == t.right
    ensures Leftmost(spine) && s.Node? && s.left.Leaf? && s.item == node
  {
    hide RbRoot.At, Nodes;
    ghost var base := InRight(old_, t.color, t.left, ctx);
    FocusFacts(root, ctx, t);
    root.Refocus(base, t.right);
    node := old_.right;
    spine, s := Top, t.right;
    FocusFacts(root, base, s);
    while node.left != null
      invariant root.At(Compose(spine, base), s) && Plug(spine, s) == t.right
      invariant Leftmost(spine) && s.Node? && s.item == node && node.left == Root(s.left)
      decreases s
    {
      root.Refocus(InLeft(s.item, s.color, s.right, Compose(spine, base)), s.left);
      node := node.left;
      spine, s := InLeft(s.item, s.color, s.right, spine), s.left;
      FocusFacts(root, Compose(spine, base), s);
    }
  }

  lemma {:induction false} BaseInPath(spine: Ctx, base: Ctx)
    requires !base.Top?
    ensures base.item in CtxNodes(Compose(spine, base))
    decreases spine
  {
    if !spine.Top? { BaseInPath(spine.up, base); }
  }

  /** The cut-out successor is not the erased node, and the erased node is the successor's
      parent exactly when the search made no step to the left. */
  lemma SuccessorApart(root: RbRoot, spine: Ctx, base: Ctx, s: Tree)
    requires root.At(Compose(spine, base), s) && s.Node? && !base.Top?
    ensures s.item != base.item && base.item in root.repr
    ensures s.item.parent == ParentOf(Compose(spine, base))
    ensures ParentOf(Compose(spine, base)) == base.item <==> spine.Top?
  {
    BaseInPath(spine, base);
    FocusFacts(root, Compose(spine, base), s);
    if !spine.Top? { BaseInPath(spine.up, base); }
  }

  /** The rules after the successor has moved: at most its black node is missing. */
  lemma SuccessorRules(ctx: Ctx, t: Tree, spine: Ctx, s: Tree)
    requires t.Node? && Plug(spine, s) == t.right && s.Node? && s.left.Leaf?
    requires IsRB(Plug(ctx, t)) && !IsRed(Plug(ctx, t))
    ensures var ctx' := Compose(spine, InRight(s.item, t.color, t.left, ctx)); var s' := OnlyChild(s);
      (s.color.Black? ==> Deficit(ctx', s')) && (s.color.Red? ==> Fits(ctx', s'))
  {
    hide InOrder, Before, After;
    var base, base' := InRight(t.item, t.color, t.left, ctx), InRight(s.item, t.color, t.left, ctx);
    var s' := OnlyChild(s);
    PlugCompose(spine, base, s);
    RBParts(Compose(spine, base), s);
    CutRB(Compose(spine, base), s);
    CtxRBRename(spine, base, base', BlackHeight(s'));
    CtxRBRename(spine, base, base', BlackHeight(s') + 1);
  }

  lemma OnlyChildOrder(s: Tree)
    requires s.Node? && s.left.Leaf?
    ensures InOrder(s) == [s.item] + InOrder(OnlyChild(s))
  {
    assert [] + [s.item] + InOrder(s.right) == [s.item] + InOrder(s.right);
  }

  lemma FirstOf<T>(x: seq<T>, r: seq<T>, a: seq<T>)
    ensures [] + (x + r) + a == x + ([] + r + a)
  {
  }

  /** A node with no left child is the first of its subtree. */
  lemma LeftmostFirst(spine: Ctx, s: Tree)
    requires Leftmost(spine) && s.Node? && s.left.Leaf?
    ensures InOrder(Plug(spine, s)) == [s.item] + InOrder(Plug(spine, OnlyChild(s)))
  {
    hide InOrder, Plug, Leftmost, OnlyChild, Before, After;
    LeftmostBefore(spine);
    PlugNodes(spine, s);
    PlugNodes(spine, OnlyChild(s));
    OnlyChildOrder(s);
    FirstOf([s.item], InOrder(OnlyChild(s)), After(spine));
  }

  /** The order after the successor has moved. */
  lemma SuccessorOrder(ctx: Ctx, t: Tree, spine: Ctx, s: Tree)
    requires t.Node? && Plug(spine, s) == t.right && Leftmost(spine) && s.Node? && s.left.Leaf?
    ensures var ctx' := Compose(spine, InRight(s.item, t.color, t.left, ctx));
      Sequence(ctx', OnlyChild(s)) == Before(ctx) + InOrder(t.left) + InOrder(t.right) + After(ctx)
  {
    hide InOrder, Plug, Compose, Leftmost;
    var base' := InRight(s.item, t.color, t.left, ctx);
    var r' := Plug(spine, OnlyChild(s));
    LeftmostFirst(spine, s);
    SequenceCompose(spine, base', OnlyChild(s));
    Regroup(Before(ctx), InOrder(t.left), [s.item], InOrder(r'), After(ctx));
  }

  /** rb_erase for a node with two children, up to the label `color`: the successor is cut
      out and put in the node's place.  The black height may then be short at (ctx', s'). */
  method EraseInner(old_: RbNode, root: RbRoot, ghost ctx: Ctx, ghost t: Tree)
    returns (child: RbNode?, parent: RbNode, color: Color, ghost ctx': Ctx, ghost s': Tree)
    requires root.At(ctx, t) && t.Node? && t.item == old_ && t.left.Node? && t.right.Node?
    requires IsRB(Plug(ctx, t)) && !IsRed(Plug(ctx, t))
    modifies root`node, root`repr, root.repr`parent, root.repr`left, root.repr`right, root.repr`color
    ensures root.At(ctx', s') && child == Root(s') && parent == ParentOf(ctx') && root.repr == old(root.repr) - {old_}
    ensures color.Black? ==> Deficit(ctx', s')
    ensures color.Red? ==> Fits(ctx', s')
    ensures Sequence(ctx', s') == Before(ctx) + InOrder(t.left) + InOrder(t.right) + After(ctx)
  {
    hide RbRoot.At, Nodes, CtxRB, Balanced, NoRedRed, BlackHeight, Deficit, Fits, InOrder, Sequence, CtxNodes;
    ghost var spine, s;
    var node;
    node, spine, s := Successor(old_, root, ctx, t);
    ghost var base, base' := InRight(old_, t.color, t.left, ctx), InRight(node, t.color, t.left, ctx);
    ghost var path := Compose(spine, base);
    FocusFacts(root, path, s);
    SuccessorApart(root, spine, base, s);
    child := node.right;
    parent := node.parent;
    color := node.color;
    Cut(node, child, parent, root, path, s);
    if node.parent == old_ {
      parent := node;
    }
    s' := OnlyChild(s);
    ghost var r' := Plug(spine, s');
    root.RefocusAll(spine, base, s');
    root.Refocus(base, r');
    TakePlace(old_, node, root, ctx, Node(t.left, old_, t.color, r'));
    root.Refocus(base', r');
    root.RefocusAll(spine, base', s');
    ctx' := Compose(spine, base');
    SuccessorRules(ctx, t, spine, s);
    SuccessorOrder(ctx, t, spine, s);
  }

  lemma Regroup<T>(a: seq<T>, l: seq<T>, x: seq<T>, r: seq<T>, b: seq<T>)
    ensures a + (l + x + r) + b == (a + l) + x + (r + b)
    ensures x == [] ==> (a + l) + (r + b) == a + l + r + b
  {
  }

  /** The erased node occurs once in the sequence. */
  lemma ErasedOnce(ctx: Ctx, t: Tree)
    requires t.Node? && Apart(ctx, t)
    ensures Without(Sequence(ctx, t), t.item) == Before(ctx) + InOrder(t.left) + InOrder(t.right) + After(ctx)
  {
    InOrderNodes(t.left);
    InOrderNodes(t.right);
    AroundNodes(ctx);
    var a, b := Before(ctx) + InOrder(t.left), InOrder(t.right) + After(ctx);
    assert t.item !in a && t.item !in b;
    Regroup(Before(ctx), InOrder(t.left), [t.item], InOrder(t.right), After(ctx));
    Regroup(Before(ctx), InOrder(t.left), [], InOrder(t.right), After(ctx));
    WithoutMiddle(a, t.item, b);
  }

  /** rb_erase with at most one child, up to the label `color`. */
  method EraseOuter(node: RbNode, child: RbNode?, root: RbRoot, ghost ctx: Ctx, ghost t: Tree)
    returns (parent: RbNode?, color: Color)
    requires root.At(ctx, t) && t.Node? && t.item == node && (t.left.Leaf? || t.right.Leaf?)
    requires child == Root(OnlyChild(t)) && IsRB(Plug(ctx, t)) && !IsRed(Plug(ctx, t))
    modifies root`node, root`repr, root.repr`parent, root.repr`left, root.repr`right
    ensures root.At(ctx, OnlyChild(t)) && parent == ParentOf(ctx) && root.repr == old(root.repr) - {node}
    ensures color.Black? ==> Deficit(ctx, OnlyChild(t))
    ensures color.Red? ==> Fits(ctx, OnlyChild(t))
    ensures Sequence(ctx, OnlyChild(t)) == Before(ctx) + InOrder(t.left) + InOrder(t.right) + After(ctx)
  {
    hide RbRoot.At, Nodes, CtxRB, Balanced, NoRedRed, BlackHeight, Deficit, Fits, CtxNodes;
    FocusFacts(root, ctx, t);
    RBParts(ctx, t);
    CutRB(ctx, t);
    parent := node.parent;
    color := node.color;
    Cut(node, child, parent, root, ctx, t);
  }

  /** rb_erase: the tree keeps all its rules and all its nodes in order, except `node`. */
  method Erase(node: RbNode, root: RbRoot)
    requires root.Valid() && node in root.repr
    modifies root`node, root`repr, root`tree, root.repr`parent, root.repr`left, root.repr`right, root.repr`color
    ensures root.Valid() && root.repr == old(root.repr) - {node}
    ensures InOrder(root.tree) == Without(old(InOrder(root.tree)), node)
  {
    hide RbRoot.At, CtxRB, Balanced, NoRedRed, BlackHeight, Deficit, Fits, InOrder, Sequence, CtxNodes, Apart;
    root.RootIsThere(root.tree);
    ghost var ctx, t := Locate(Top, root.tree, node);
    ComposeTop(ctx);
    root.RefocusAll(ctx, Top, t);
    PlugNodes(ctx, t);
    FocusFacts(root, ctx, t);
    AtApart(root, ctx, t);
    ErasedOnce(ctx, t);
    var child: RbNode?, parent: RbNode?, color;
    ghost var ctx', s';
    if node.left == null {
      child := node.right;
      parent, color := EraseOuter(node, child, root, ctx, t);
      ctx', s' := ctx, OnlyChild(t);
    } else if node.right == null {
      child := node.left;
      parent, color := EraseOuter(node, child, root, ctx, t);
      ctx', s' := ctx, OnlyChild(t);
    } else {
      child, parent, color, ctx', s' := EraseInner(node, root, ctx, t);
    }
    if color == Black {
      EraseColor(child, parent, root, ctx', s');
    } else {
      Conclude(root, ctx', s');
      root.tree := Plug(ctx', s');
    }
  }

  lemma AtApart(root: RbRoot, ctx: Ctx, t: Tree)
    requires root.At(ctx, t)
    ensures Apart(ctx, t)
  {
  }
}
