/** rb_first, rb_last, rb_next and rb_prev, and the height bound. */
module RbWalk {
  import opened Common
  import opened RedBlack
  import opened RbTree

  ghost function Head(s: seq<RbNode>): RbNode? { if s == [] then null else s[0] }

  ghost function Last(s: seq<RbNode>): RbNode? { if s == [] then null else s[|s| - 1] }

  /** The element after x, and before x, in a sequence that contains x once. */
  ghost function NextIn(s: seq<RbNode>, x: RbNode): RbNode? {
    if s == [] then null else if s[0] == x then Head(s[1..]) else NextIn(s[1..], x)
  }

  ghost function PrevIn(s: seq<RbNode>, x: RbNode): RbNode? {
    if |s| <= 1 then null else if s[1] == x then s[0] else PrevIn(s[1..], x)
  }

  lemma {:induction false} NextMiddle(a: seq<RbNode>, x: RbNode, b: seq<RbNode>)
    requires x !in a
    ensures NextIn(a + [x] + b, x) == Head(b)
  {
    var s := a + [x] + b;
    if a == [] {
      assert s[1..] == b;
    } else {
      assert s[1..] == a[1..] + [x] + b;
      NextMiddle(a[1..], x, b);
    }
  }

  lemma {:induction false} PrevMiddle(a: seq<RbNode>, x: RbNode, b: seq<RbNode>)
    requires x !in a && x !in b
    ensures PrevIn(a + [x] + b, x) == Last(a)
  {
    var s := a + [x] + b;
    if a == [] {
      if b != [] { PrevAbsent(s, x); }
    } else {
      assert s[1..] == a[1..] + [x] + b;
      if |a| == 1 {
        assert s[1] == x;
      } else {
        PrevMiddle(a[1..], x, b);
      }
    }
  }

  lemma {:induction false} PrevAbsent(s: seq<RbNode>, x: RbNode)
    requires s != [] && x !in s[1..]
    ensures PrevIn(s, x) == null
  {
    if |s| > 1 { PrevAbsent(s[1..], x); }
  }

  lemma AtIndex(s: seq<RbNode>, i: nat)
    requires NoDup(s) && i < |s|
    ensures NextIn(s, s[i]) == if i + 1 < |s| then s[i + 1] else null
    ensures PrevIn(s, s[i]) == if i > 0 then s[i - 1] else null
  {
    assert s == s[..i] + [s[i]] + s[i + 1..];
    NextMiddle(s[..i], s[i], s[i + 1..]);
    PrevMiddle(s[..i], s[i], s[i + 1..]);
  }

  /** rb_next and rb_prev undo each other on the nodes of a tree. */
  lemma NextPrevInverse(s: seq<RbNode>, x: RbNode, y: RbNode)
    requires NoDup(s) && x in s && y in s
    ensures NextIn(s, x) == y <==> PrevIn(s, y) == x
  {
    hide NextIn, PrevIn;
    var i :| 0 <= i < |s| && s[i] == x;
    var j :| 0 <= j < |s| && s[j] == y;
    AtIndex(s, i);
    AtIndex(s, j);
  }

  lemma NoDupAround<T>(l: seq<T>, x: T, r: seq<T>)
    requires NoDup(l) && NoDup(r) && x !in l && x !in r && Elems(l) !! Elems(r)
    ensures NoDup(l + [x] + r)
  {
    assert forall y :: y in l ==> y in Elems(l);
    assert forall y :: y in r ==> y in Elems(r);
    var s := l + [x] + r;
    forall i, j | 0 <= i < j < |s| ensures s[i] != s[j] {
      if i < |l| { assert s[i] == l[i] && s[i] in l; }
      if |l| < i { assert s[i] == r[i - |l| - 1] && s[j] == r[j - |l| - 1]; }
      if |l| < j { assert s[j] == r[j - |l| - 1] && s[j] in r; }
    }
  }

  lemma {:induction false} DistinctNoDup(t: Tree)
    requires Distinct(t)
    ensures NoDup(InOrder(t))
  {
    if t.Node? {
      DistinctNoDup(t.left);
      DistinctNoDup(t.right);
      SplitNodes(t);
      NoDupAround(InOrder(t.left), t.item, InOrder(t.right));
    }
  }

  lemma SplitNodes(t: Tree)
    requires t.Node? && Distinct(t)
    ensures t.item !in InOrder(t.left) && t.item !in InOrder(t.right)
    ensures Elems(InOrder(t.left)) !! Elems(InOrder(t.right))
  {
    hide InOrder, Nodes, Distinct;
    SplitDistinct(t);
    InOrderNodes(t.left);
    InOrderNodes(t.right);
    assert Elems(InOrder(t.left)) !! Elems(InOrder(t.right));
  }

  lemma SplitDistinct(t: Tree)
    requires t.Node? && Distinct(t)
    ensures t.item !in Nodes(t.left) && t.item !in Nodes(t.right) && Nodes(t.left) !! Nodes(t.right)
  {
  }

  /** A path that only goes left, or only right. */
  ghost predicate OnlyLeft(c: Ctx) { c.Top? || (c.InLeft? && OnlyLeft(c.up)) }

  ghost predicate OnlyRight(c: Ctx) { c.Top? || (c.InRight? && OnlyRight(c.up)) }

  lemma {:induction false} StraightPaths(c: Ctx)
    ensures OnlyLeft(c) ==> Before(c) == []
    ensures OnlyRight(c) ==> After(c) == []
  {
    if !c.Top? { StraightPaths(c.up); }
  }

  lemma PathEnds(spine: Ctx, s: Tree)
    requires s.Node?
    ensures OnlyLeft(spine) && s.left.Leaf? ==> InOrder(Plug(spine, s)) != [] && Head(InOrder(Plug(spine, s))) == s.item
    ensures OnlyRight(spine) && s.right.Leaf? ==> InOrder(Plug(spine, s)) != [] && Last(InOrder(Plug(spine, s))) == s.item
  {
    PlugNodes(spine, s);
    StraightPaths(spine);
    var a, l, r, b := Before(spine), InOrder(s.left), InOrder(s.right), After(spine);
    assert InOrder(Plug(spine, s)) == a + (l + [s.item] + r) + b;
    assert a == [] && l == [] ==> (a + (l + [s.item] + r) + b)[0] == s.item;
    assert b == [] && r == [] ==> Last(a + (l + [s.item] + r) + b) == s.item;
  }

  // ---------- descending ----------

  /** The loop `while (n->rb_left) n = n->rb_left` from the root of a subtree. */
  method DescendLeft(n0: RbNode, root: RbRoot, ghost ctx: Ctx, ghost t: Tree) returns (n: RbNode)
    requires root.At(ctx, t) && t.Node? && t.item == n0
    ensures n == Head(InOrder(t)) && InOrder(t) != []
  {
    hide RbRoot.At, Nodes, InOrder, CtxNodes;
    n := n0;
    ghost var spine, s := Top, t;
    FocusFacts(root, ctx, t);
    while n.left != null
      invariant root.At(Compose(spine, ctx), s) && s.Node? && s.item == n && n.left == Root(s.left)
      invariant OnlyLeft(spine) && Plug(spine, s) == t
      decreases s
    {
      root.Refocus(InLeft(s.item, s.color, s.right, Compose(spine, ctx)), s.left);
      n := n.left;
      spine, s := InLeft(s.item, s.color, s.right, spine), s.left;
      FocusFacts(root, Compose(spine, ctx), s);
    }
    PathEnds(spine, s);
  }

  method DescendRight(n0: RbNode, root: RbRoot, ghost ctx: Ctx, ghost t: Tree) returns (n: RbNode)
    requires root.At(ctx, t) && t.Node? && t.item == n0
    ensures n == Last(InOrder(t)) && InOrder(t) != []
  {
    hide RbRoot.At, Nodes, InOrder, CtxNodes;
    n := n0;
    ghost var spine, s := Top, t;
    FocusFacts(root, ctx, t);
    while n.right != null
      invariant root.At(Compose(spine, ctx), s) && s.Node? && s.item == n && n.right == Root(s.right)
      invariant OnlyRight(spine) && Plug(spine, s) == t
      decreases s
    {
      root.Refocus(InRight(s.item, s.color, s.left, Compose(spine, ctx)), s.right);
      n := n.right;
      spine, s := InRight(s.item, s.color, s.left, spine), s.right;
      FocusFacts(root, Compose(spine, ctx), s);
    }
    PathEnds(spine, s);
  }

  method First(root: RbRoot) returns (r: RbNode?)
    requires root.Valid()
    ensures r == Head(InOrder(root.tree))
  {
    FocusFacts(root, Top, root.tree);
    root.RootIsThere(root.tree);
    if root.node == null {
      return null;
    }
    r := DescendLeft(root.node, root, Top, root.tree);
  }

  method LastOf(root: RbRoot) returns (r: RbNode?)
    requires root.Valid()
    ensures r == Last(InOrder(root.tree))
  {
    FocusFacts(root, Top, root.tree);
    root.RootIsThere(root.tree);
    if root.node == null {
      return null;
    }
    r := DescendRight(root.node, root, Top, root.tree);
  }

  // ---------- neighbours ----------

  /** rb_next: from any node to the following one in sort order, or null. */
  method Next(node0: RbNode, root: RbRoot) returns (r: RbNode?)
    requires root.Valid() && node0 in root.repr
    ensures r == NextIn(InOrder(root.tree), node0)
  {
    hide RbRoot.At, Nodes, InOrder, CtxNodes;
    ghost var ctx, t := Place(root, node0);
    NextAt(ctx, t);
    FocusFacts(root, ctx, t);
    var node := node0;
    if node.right != null {
      ghost var c := InRight(node, t.color, t.left, ctx);
      root.Refocus(c, t.right);
      r := DescendLeft(node.right, root, c, t.right);
      HeadOfSum(InOrder(t.right), After(ctx));
      return;
    }
    while node.parent != null && node == node.parent.right
      invariant root.At(ctx, t) && t.Node? && t.item == node && node.parent == ParentOf(ctx)
      invariant NextIn(InOrder(root.tree), node0) == Head(After(ctx))
      decreases ctx
    {
      Surroundings(root, ctx, t);
      root.Refocus(ctx, t);
      node := node.parent;
      ctx, t := ctx.up, Fill(ctx, t);
      FocusFacts(root, ctx, t);
    }
    if !ctx.Top? { Surroundings(root, ctx, t); }
    return node.parent;
  }

  method Prev(node0: RbNode, root: RbRoot) returns (r: RbNode?)
    requires root.Valid() && node0 in root.repr
    ensures r == PrevIn(InOrder(root.tree), node0)
  {
    hide RbRoot.At, Nodes, InOrder, CtxNodes;
    ghost var ctx, t := Place(root, node0);
    NextAt(ctx, t);
    FocusFacts(root, ctx, t);
    var node := node0;
    if node.left != null {
      ghost var c := InLeft(node, t.color, t.right, ctx);
      root.Refocus(c, t.left);
      r := DescendRight(node.left, root, c, t.left);
      HeadOfSum(Before(ctx), InOrder(t.left));
      return;
    }
    while node.parent != null && node == node.parent.left
      invariant root.At(ctx, t) && t.Node? && t.item == node && node.parent == ParentOf(ctx)
      invariant PrevIn(InOrder(root.tree), node0) == Last(Before(ctx))
      decreases ctx
    {
      Surroundings(root, ctx, t);
      root.Refocus(ctx, t);
      node := node.parent;
      ctx, t := ctx.up, Fill(ctx, t);
      FocusFacts(root, ctx, t);
    }
    if !ctx.Top? { Surroundings(root, ctx, t); }
    return node.parent;
  }

  lemma HeadOfSum(a: seq<RbNode>, b: seq<RbNode>)
    ensures a != [] ==> Head(a + b) == Head(a)
    ensures b != [] ==> Last(a + b) == Last(b)
  {
  }

  /** The place of a node in a stored tree. */
  lemma Place(root: RbRoot, n: RbNode) returns (ctx: Ctx, t: Tree)
    requires root.Valid() && n in root.repr
    ensures root.At(ctx, t) && t.Node? && t.item == n && Apart(ctx, t) && Plug(ctx, t) == root.tree
  {
    root.RootIsThere(root.tree);
    ctx, t := Locate(Top, root.tree, n);
    ComposeTop(ctx);
    root.RefocusAll(ctx, Top, t);
  }

  /** Neighbours read off the place of a node. */
  lemma NextAt(ctx: Ctx, t: Tree)
    requires t.Node? && Apart(ctx, t)
    ensures NextIn(InOrder(Plug(ctx, t)), t.item) == Head(InOrder(t.right) + After(ctx))
    ensures PrevIn(InOrder(Plug(ctx, t)), t.item) == Last(Before(ctx) + InOrder(t.left))
    ensures t.right.Leaf? ==> InOrder(t.right) + After(ctx) == After(ctx)
    ensures t.left.Leaf? ==> Before(ctx) + InOrder(t.left) == Before(ctx)
    ensures t.left.Node? ==> InOrder(t.left) != []
  {
    PlugNodes(ctx, t);
    InOrderNodes(t.left);
    InOrderNodes(t.right);
    AroundNodes(ctx);
    Neighbours(Before(ctx), InOrder(t.left), t.item, InOrder(t.right), After(ctx));
    if t.left.Node? { InOrderNodes(t.left); assert t.left.item in Nodes(t.left); }
  }

  lemma Neighbours(a: seq<RbNode>, l: seq<RbNode>, x: RbNode, r: seq<RbNode>, b: seq<RbNode>)
    requires x !in a && x !in l && x !in r && x !in b
    ensures NextIn(a + (l + [x] + r) + b, x) == Head(r + b)
    ensures PrevIn(a + (l + [x] + r) + b, x) == Last(a + l)
  {
    assert a + (l + [x] + r) + b == (a + l) + [x] + (r + b);
    NextMiddle(a + l, x, r + b);
    PrevMiddle(a + l, x, r + b);
  }

  // ---------- height ----------

  ghost function Height(t: Tree): nat {
    if t.Leaf? then 0 else 1 + (if Height(t.left) > Height(t.right) then Height(t.left) else Height(t.right))
  }

  ghost function Pow2(n: nat): nat { if n == 0 then 1 else 2 * Pow2(n - 1) }

  lemma {:induction false} BlackHeightBounds(t: Tree)
    requires IsRB(t)
    ensures Height(t) <= 2 * BlackHeight(t) + (if IsRed(t) then 1 else 0)
    ensures Pow2(BlackHeight(t)) <= |InOrder(t)| + 1
  {
    if t.Node? {
      BlackHeightBounds(t.left);
      BlackHeightBounds(t.right);
    }
  }

  lemma {:induction false} Pow2Sum(a: nat, b: nat)
    ensures Pow2(a + b) == Pow2(a) * Pow2(b)
  {
    if a > 0 { Pow2Sum(a - 1, b); }
  }

  lemma {:induction false} Pow2Monotone(a: nat, b: nat)
    requires a <= b
    ensures Pow2(a) <= Pow2(b)
  {
    if a < b { Pow2Monotone(a, b - 1); }
  }

  /** A valid tree of n nodes is at most 2*log2(n + 1) high, so that many comparisons bound
      the descent of an insertion. */
  lemma HeightBound(t: Tree)
    requires IsRB(t) && !IsRed(t)
    ensures Pow2(Height(t)) <= (|InOrder(t)| + 1) * (|InOrder(t)| + 1)
  {
    var b, n := BlackHeight(t), |InOrder(t)| + 1;
    BlackHeightBounds(t);
    Pow2Monotone(Height(t), b + b);
    Pow2Sum(b, b);
    SquareMonotone(Pow2(b), n);
  }

  lemma SquareMonotone(a: nat, b: nat)
    requires a <= b
    ensures a * a <= b * b
  {
    assert a * a <= a * b <= b * b;
  }
}
