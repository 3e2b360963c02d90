/** Red-black trees as values.

    The nodes of src/kernel/rbtree.c are heap objects linked by pointers.  This module
    describes a linked structure by a value of type `Tree`, and a place inside it by a
    one-hole context `Ctx` (the path from that place up to the root).  The fix-up loops of
    rbtree.c walk towards the root, so each of their states is a pair of a context and the
    subtree that fills its hole. */
module RedBlack {
  import opened Common

  datatype Color = Red | Black

  /** Seconds and nanoseconds, as in struct timespec. */
  datatype Timespec = Timespec(sec: int, nsec: int)

  /** An rb_node together with the fields of the __poller_node around it that the poller
      uses: rb_entry turns one into the other by a constant offset, so they are one object
      here.  The algorithms of rbtree.c touch the first four fields only. */
  class RbNode {
    var parent: RbNode?
    var right: RbNode?
    var left: RbNode?
    var color: Color
    var timeout: Timespec
    var inRbtree: bool
    var fd: int
    var removed: bool
  }

  /** malloc of a __poller_node: the fields hold anything. */
  method AllocNode() returns (node: RbNode)
    ensures fresh(node)
  {
    node := new RbNode;
  }

  datatype Tree = Leaf | Node(left: Tree, item: RbNode, color: Color, right: Tree)

  /** A tree with one subtree cut out, read from the hole upwards: `sib` is the other child
      of the hole's parent `item`. */
  datatype Ctx =
    | Top
    | InLeft(item: RbNode, color: Color, sib: Tree, up: Ctx)
    | InRight(item: RbNode, color: Color, sib: Tree, up: Ctx)

  // ---------- nodes, sequences, filling the hole ----------

  ghost function Root(t: Tree): RbNode? {
    if t.Leaf? then null else t.item
  }

  ghost function ParentOf(ctx: Ctx): RbNode? {
    if ctx.Top? then null else ctx.item
  }

  ghost function Nodes(t: Tree): set<RbNode> {
    match t
    case Leaf => {}
    case Node(l, n, _, r) => Nodes(l) + {n} + Nodes(r)
  }

  /** All nodes except the root. */
  ghost function Below(t: Tree): set<RbNode> {
    match t
    case Leaf => {}
    case Node(l, _, _, r) => Nodes(l) + Nodes(r)
  }

  ghost function CtxNodes(ctx: Ctx): set<RbNode> {
    if ctx.Top? then {} else Nodes(ctx.sib) + {ctx.item} + CtxNodes(ctx.up)
  }

  /** No node occurs twice. */
  ghost predicate Distinct(t: Tree) {
    match t
    case Leaf => true
    case Node(l, n, _, r) =>
      n !in Nodes(l) && n !in Nodes(r) && Nodes(l) !! Nodes(r) && Distinct(l) && Distinct(r)
  }

  ghost predicate DistinctCtx(ctx: Ctx) {
    ctx.Top? ||
    (ctx.item !in Nodes(ctx.sib) && ctx.item !in CtxNodes(ctx.up) && Nodes(ctx.sib) !! CtxNodes(ctx.up)
     && Distinct(ctx.sib) && DistinctCtx(ctx.up))
  }

  ghost predicate Apart(ctx: Ctx, t: Tree) {
    Distinct(t) && DistinctCtx(ctx) && Nodes(t) !! CtxNodes(ctx)
  }

  ghost function InOrder(t: Tree): seq<RbNode> {
    match t
    case Leaf => []
    case Node(l, n, _, r) => InOrder(l) + [n] + InOrder(r)
  }

  /** What precedes, and what follows, the hole in sort order. */
  ghost function Before(ctx: Ctx): seq<RbNode> {
    match ctx
    case Top => []
    case InLeft(_, _, _, up) => Before(up)
    case InRight(n, _, l, up) => Before(up) + InOrder(l) + [n]
  }

  ghost function After(ctx: Ctx): seq<RbNode> {
    match ctx
    case Top => []
    case InLeft(n, _, r, up) => [n] + InOrder(r) + After(up)
    case InRight(_, _, _, up) => After(up)
  }

  ghost function Sequence(ctx: Ctx, t: Tree): seq<RbNode> {
    Before(ctx) + InOrder(t) + After(ctx)
  }

  /** One step outwards: the tree rooted at the hole's parent. */
  ghost function Fill(ctx: Ctx, t: Tree): (r: Tree)
    requires !ctx.Top?
    ensures r.Node? && r.item == ctx.item
  {
    if ctx.InLeft? then Node(t, ctx.item, ctx.color, ctx.sib) else Node(ctx.sib, ctx.item, ctx.color, t)
  }

  ghost function Plug(ctx: Ctx, t: Tree): Tree {
    if ctx.Top? then t else Plug(ctx.up, Fill(ctx, t))
  }

  /** `inner` hung below `outer`. */
  ghost function Compose(inner: Ctx, outer: Ctx): Ctx {
    if inner.Top? then outer else inner.(up := Compose(inner.up, outer))
  }

  ghost function Depth(ctx: Ctx): nat {
    if ctx.Top? then 0 else 1 + Depth(ctx.up)
  }

  // ---------- the red-black rules ----------

  ghost predicate IsRed(t: Tree) { t.Node? && t.color.Red? }

  /** Black nodes on the leftmost path. */
  ghost function BlackHeight(t: Tree): nat {
    if t.Leaf? then 0 else BlackHeight(t.left) + (if t.color.Black? then 1 else 0)
  }

  /** Every path from the root to a null link has the same number of black nodes. */
  ghost predicate Balanced(t: Tree) {
    t.Node? ==> BlackHeight(t.left) == BlackHeight(t.right) && Balanced(t.left) && Balanced(t.right)
  }

  /** No red node has a red child. */
  ghost predicate NoRedRed(t: Tree) {
    t.Node? ==> (t.color.Red? ==> !IsRed(t.left) && !IsRed(t.right)) && NoRedRed(t.left) && NoRedRed(t.right)
  }

  ghost predicate IsRB(t: Tree) { Balanced(t) && NoRedRed(t) }

  /** The context obeys the rules when its hole is filled with a black-rooted tree of black
      height `h`; in particular the root of the whole tree is black. */
  ghost predicate CtxRB(ctx: Ctx, h: nat) {
    ctx.Top? ||
    (IsRB(ctx.sib) && BlackHeight(ctx.sib) == h
     && (ctx.color.Red? ==> !IsRed(ctx.sib) && !ctx.up.Top? && ctx.up.color.Black?)
     && CtxRB(ctx.up, if ctx.color.Black? then h + 1 else h))
  }

  ghost function Recolor(t: Tree, c: Color): (r: Tree)
    requires t.Node?
    ensures r.Node? && InOrder(r) == InOrder(t) && Nodes(r) == Nodes(t)
  {
    t.(color := c)
  }

  ghost function Blacken(t: Tree): Tree {
    if t.Leaf? then Leaf else t.(color := Black)
  }

  // ---------- contexts ----------

  lemma FillNodes(ctx: Ctx, t: Tree)
    requires !ctx.Top?
    ensures Nodes(Fill(ctx, t)) + CtxNodes(ctx.up) == Nodes(t) + CtxNodes(ctx)
    ensures Apart(ctx, t) <==> Apart(ctx.up, Fill(ctx, t))
  {
  }

  lemma FillSequence(ctx: Ctx, t: Tree)
    requires !ctx.Top?
    ensures Sequence(ctx.up, Fill(ctx, t)) == Sequence(ctx, t)
  {
    if ctx.InLeft? {
      calc {
        Before(ctx.up) + (InOrder(t) + [ctx.item] + InOrder(ctx.sib)) + After(ctx.up);
        Before(ctx.up) + InOrder(t) + ([ctx.item] + InOrder(ctx.sib) + After(ctx.up));
      }
    } else {
      calc {
        Before(ctx.up) + (InOrder(ctx.sib) + [ctx.item] + InOrder(t)) + After(ctx.up);
        (Before(ctx.up) + InOrder(ctx.sib) + [ctx.item]) + InOrder(t) + After(ctx.up);
      }
    }
  }

  lemma {:induction false} PlugNodes(ctx: Ctx, t: Tree)
    ensures Nodes(Plug(ctx, t)) == Nodes(t) + CtxNodes(ctx)
    ensures InOrder(Plug(ctx, t)) == Sequence(ctx, t)
    ensures Apart(ctx, t) <==> Distinct(Plug(ctx, t))
    decreases ctx
  {
    if !ctx.Top? {
      FillNodes(ctx, t);
      FillSequence(ctx, t);
      PlugNodes(ctx.up, Fill(ctx, t));
    }
  }

  lemma {:induction false} ComposeTop(ctx: Ctx)
    ensures Compose(ctx, Top) == ctx
  {
    if !ctx.Top? { ComposeTop(ctx.up); }
  }

  /** A context whose rules hold, filled with a tree of the right black height whose root
      does not clash with its parent, is a red-black tree with a black root. */
  lemma {:induction false} PlugIsRB(ctx: Ctx, t: Tree)
    requires IsRB(t) && CtxRB(ctx, BlackHeight(t))
    requires IsRed(t) ==> !ctx.Top? && ctx.color.Black?
    ensures IsRB(Plug(ctx, t)) && !IsRed(Plug(ctx, t))
    decreases ctx
  {
    if !ctx.Top? { PlugIsRB(ctx.up, Fill(ctx, t)); }
  }

  /** The converse: whatever place is chosen in a red-black tree with a black root, both the
      context and the subtree there obey the rules. */
  lemma {:induction false} RBParts(ctx: Ctx, t: Tree)
    requires IsRB(Plug(ctx, t)) && !IsRed(Plug(ctx, t))
    ensures IsRB(t) && CtxRB(ctx, BlackHeight(t))
    ensures IsRed(t) ==> !ctx.Top? && ctx.color.Black?
    decreases ctx
  {
    if !ctx.Top? { RBParts(ctx.up, Fill(ctx, t)); }
  }

  lemma {:induction false} PlugCompose(inner: Ctx, outer: Ctx, t: Tree)
    ensures Plug(Compose(inner, outer), t) == Plug(outer, Plug(inner, t))
    decreases inner
  {
    if !inner.Top? { PlugCompose(inner.up, outer, Fill(inner, t)); }
  }

  lemma {:induction false} SequenceCompose(inner: Ctx, outer: Ctx, t: Tree)
    ensures Sequence(Compose(inner, outer), t) == Sequence(outer, Plug(inner, t))
    decreases inner
  {
    if !inner.Top? {
      FillSequence(Compose(inner, outer), t);
      SequenceCompose(inner.up, outer, Fill(inner, t));
    }
  }

  /** Every node of a subtree is the root of some subtree of it. */
  lemma {:induction false} Locate(ctx: Ctx, t: Tree, n: RbNode) returns (c: Ctx, s: Tree)
    requires n in Nodes(t)
    ensures Plug(c, s) == Plug(ctx, t) && s.Node? && s.item == n
    decreases t
  {
    if t.item == n {
      c, s := ctx, t;
    } else if n in Nodes(t.left) {
      c, s := Locate(InLeft(t.item, t.color, t.right, ctx), t.left, n);
    } else {
      c, s := Locate(InRight(t.item, t.color, t.left, ctx), t.right, n);
    }
  }

  lemma {:induction false} InOrderNodes(t: Tree)
    ensures Elems(InOrder(t)) == Nodes(t)
  {
    if t.Node? {
      InOrderNodes(t.left);
      InOrderNodes(t.right);
      assert Elems(InOrder(t)) == Elems(InOrder(t.left)) + {t.item} + Elems(InOrder(t.right));
    }
  }

  lemma {:induction false} AroundNodes(ctx: Ctx)
    ensures Elems(Before(ctx)) + Elems(After(ctx)) == CtxNodes(ctx)
    decreases ctx
  {
    if !ctx.Top? {
      AroundNodes(ctx.up);
      InOrderNodes(ctx.sib);
      if ctx.InLeft? {
        assert Elems(After(ctx)) == {ctx.item} + Elems(InOrder(ctx.sib)) + Elems(After(ctx.up));
      } else {
        assert Elems(Before(ctx)) == Elems(Before(ctx.up)) + Elems(InOrder(ctx.sib)) + {ctx.item};
      }
    }
  }

  /** The sequence without x. */
  function Without<T(==)>(s: seq<T>, x: T): seq<T> {
    if s == [] then [] else (if s[0] == x then [] else [s[0]]) + Without(s[1..], x)
  }

  lemma {:induction false} WithoutAbsent<T>(s: seq<T>, x: T)
    requires x !in s
    ensures Without(s, x) == s
  {
    if s != [] { WithoutAbsent(s[1..], x); }
  }

  lemma {:induction false} WithoutMiddle<T>(a: seq<T>, x: T, b: seq<T>)
    requires x !in a && x !in b
    ensures Without(a + [x] + b, x) == a + b
  {
    var s := a + [x] + b;
    if a == [] {
      assert s[1..] == b;
      WithoutAbsent(b, x);
    } else {
      assert s[1..] == a[1..] + [x] + b;
      WithoutMiddle(a[1..], x, b);
    }
  }

  // ---------- rotations ----------

  ghost function RotL(t: Tree): Tree
    requires t.Node? && t.right.Node?
  {
    Node(Node(t.left, t.item, t.color, t.right.left), t.right.item, t.right.color, t.right.right)
  }

  ghost function RotR(t: Tree): Tree
    requires t.Node? && t.left.Node?
  {
    Node(t.left.left, t.left.item, t.left.color, Node(t.left.right, t.item, t.color, t.right))
  }

  lemma Reassociate<T>(a: seq<T>, x: T, b: seq<T>, y: T, c: seq<T>)
    ensures a + [x] + (b + [y] + c) == (a + [x] + b) + [y] + c
  {
  }

  lemma RotLInOrder(t: Tree)
    requires t.Node? && t.right.Node?
    ensures InOrder(RotL(t)) == InOrder(t)
  {
    assert InOrder(t.right) == InOrder(t.right.left) + [t.right.item] + InOrder(t.right.right);
    assert InOrder(RotL(t).left) == InOrder(t.left) + [t.item] + InOrder(t.right.left);
    Reassociate(InOrder(t.left), t.item, InOrder(t.right.left), t.right.item, InOrder(t.right.right));
  }

  lemma RotRInOrder(t: Tree)
    requires t.Node? && t.left.Node?
    ensures InOrder(RotR(t)) == InOrder(t)
  {
    assert RotL(RotR(t)) == t;
    RotLInOrder(RotR(t));
  }

  /** n occurs nowhere in t. */
  ghost predicate Outside(n: RbNode, t: Tree) { n !in Nodes(t) && n !in Below(t) }

  lemma RotLNodes(t: Tree)
    requires t.Node? && t.right.Node? && Distinct(t)
    ensures Distinct(RotL(t)) && Nodes(RotL(t)) == Nodes(t) && InOrder(RotL(t)) == InOrder(t)
    ensures var x := t.item; var y := t.right.item; var a := t.left; var b := t.right.left; var c := t.right.right;
      x != y && Outside(x, a) && Outside(x, b) && Outside(x, c) && Outside(y, a) && Outside(y, b) && Outside(y, c) &&
      x in Nodes(t) && y in Nodes(t) &&
      (b.Node? ==> b.item in Nodes(t) && b.item != x && b.item != y
                   && Outside(b.item, a) && Outside(b.item, c) && b.item !in Below(b)) &&
      (a.Node? ==> a.item != x && a.item != y && a.item != Root(b)) &&
      (c.Node? ==> c.item != x && c.item != y && c.item != Root(b))
  {
    RotLInOrder(t);
    var b := t.right.left;
    assert Distinct(t.right) && Distinct(b);
    assert b.Node? ==> b.item in Nodes(b);
    assert t.left.Node? ==> t.left.item in Nodes(t.left);
    assert t.right.right.Node? ==> t.right.right.item in Nodes(t.right.right);
  }

  lemma RotRNodes(t: Tree)
    requires t.Node? && t.left.Node? && Distinct(t)
    ensures Distinct(RotR(t)) && Nodes(RotR(t)) == Nodes(t) && InOrder(RotR(t)) == InOrder(t)
    ensures var x := t.item; var y := t.left.item; var a := t.left.left; var b := t.left.right; var c := t.right;
      x != y && Outside(x, a) && Outside(x, b) && Outside(x, c) && Outside(y, a) && Outside(y, b) && Outside(y, c) &&
      x in Nodes(t) && y in Nodes(t) &&
      (b.Node? ==> b.item in Nodes(t) && b.item != x && b.item != y
                   && Outside(b.item, a) && Outside(b.item, c) && b.item !in Below(b)) &&
      (a.Node? ==> a.item != x && a.item != y && a.item != Root(b)) &&
      (c.Node? ==> c.item != x && c.item != y && c.item != Root(b))
  {
    RotRInOrder(t);
    var b := t.left.right;
    assert Distinct(t.left) && Distinct(b);
    assert b.Node? ==> b.item in Nodes(b);
    assert t.right.Node? ==> t.right.item in Nodes(t.right);
    assert t.left.left.Node? ==> t.left.left.item in Nodes(t.left.left);
  }
}
