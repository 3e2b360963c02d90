/** The pending deadlines of one poller (src/kernel/poller.cc): a list sorted by deadline, a
    red-black tree for what does not fit at the list's end, and one timerfd. */
module TimerQueue {
  import opened Common
  import opened RedBlack
  import opened RbTree
  import RbInsert
  import RbErase
  import opened RbWalk

  // ---------- deadlines ----------

  /** __timeout_cmp: negative, zero or positive like node1 - node2. */
  function TimeoutCmp(a: Timespec, b: Timespec): int {
    if a.sec - b.sec == 0 then a.nsec - b.nsec else a.sec - b.sec
  }

  predicate Le(a: Timespec, b: Timespec) { TimeoutCmp(a, b) <= 0 }

  const NANO := 1_000_000_000

  predicate Normal(a: Timespec) { 0 <= a.nsec < NANO }

  function Nanoseconds(a: Timespec): int { a.sec * NANO + a.nsec }

  /** On normalised times the field-wise comparison is the comparison of instants. */
  lemma CmpIsInstantOrder(a: Timespec, b: Timespec)
    requires Normal(a) && Normal(b)
    ensures TimeoutCmp(a, b) < 0 <==> Nanoseconds(a) < Nanoseconds(b)
    ensures TimeoutCmp(a, b) == 0 <==> Nanoseconds(a) == Nanoseconds(b)
  {
    if a.sec < b.sec { assert (b.sec - a.sec) * NANO >= NANO; }
    if b.sec < a.sec { assert (a.sec - b.sec) * NANO >= NANO; }
  }

  ghost predicate Sorted(s: seq<RbNode>)
    reads Elems(s)`timeout
  {
    forall i, j :: 0 <= i < j < |s| ==> Le(s[i].timeout, s[j].timeout)
  }

  ghost predicate AllLe(s: seq<RbNode>, x: Timespec)
    reads Elems(s)`timeout
  {
    forall i :: 0 <= i < |s| ==> Le(s[i].timeout, x)
  }

  ghost predicate AllGt(s: seq<RbNode>, x: Timespec)
    reads Elems(s)`timeout
  {
    forall i :: 0 <= i < |s| ==> !Le(s[i].timeout, x)
  }

  lemma AllOfNone(x: Timespec)
    ensures AllLe([], x) && AllGt([], x)
  {
  }

  lemma DueAppended(s: seq<RbNode>, n: RbNode, x: Timespec)
    requires AllLe(s, x) && TimeoutCmp(n.timeout, x) <= 0
    ensures AllLe(s + [n], x)
  {
    AllOfSum(s, [n], x);
  }

  lemma AllOfSum(a: seq<RbNode>, b: seq<RbNode>, x: Timespec)
    ensures AllLe(a + b, x) <==> AllLe(a, x) && AllLe(b, x)
    ensures AllGt(a + b, x) <==> AllGt(a, x) && AllGt(b, x)
  {
    var s := a + b;
    assert forall i :: 0 <= i < |a| ==> s[i] == a[i];
    assert forall i :: 0 <= i < |b| ==> s[|a| + i] == b[i];
  }

  lemma SortedAround(a: seq<RbNode>, n: RbNode, b: seq<RbNode>, x: Timespec)
    requires Sorted(a + [n] + b)
    ensures Le(n.timeout, x) ==> AllLe(a + [n], x)
    ensures !Le(n.timeout, x) ==> AllGt([n] + b, x)
  {
    var s := a + [n] + b;
    assert s[|a|] == n;
    assert forall i :: 0 <= i < |a| ==> s[i] == a[i];
    assert forall i :: 0 <= i < |b| ==> s[|a| + 1 + i] == b[i];
  }

  lemma SortedInsert(a: seq<RbNode>, n: RbNode, b: seq<RbNode>)
    requires Sorted(a + b) && AllLe(a, n.timeout) && AllGt(b, n.timeout)
    ensures Sorted(a + [n] + b)
  {
    var s, t := a + [n] + b, a + b;
    forall i, j | 0 <= i < j < |s| ensures Le(s[i].timeout, s[j].timeout) {
      var i', j' := if i <= |a| then i else i - 1, if j <= |a| then j else j - 1;
      if i != |a| && j != |a| { assert s[i] == t[i'] && s[j] == t[j']; }
    }
  }

  /** Walking down one step to the left, or to the right, keeps the searched position. */
  lemma DescendKeeps(ctx: Ctx, t: Tree, x: Timespec)
    requires t.Node? && Sorted(Sequence(ctx, t)) && AllLe(Before(ctx), x) && AllGt(After(ctx), x)
    ensures !Le(t.item.timeout, x) ==> AllGt([t.item] + InOrder(t.right) + After(ctx), x)
    ensures Le(t.item.timeout, x) ==> AllLe(Before(ctx) + InOrder(t.left) + [t.item], x)
  {
    var a, l, r, b := Before(ctx), InOrder(t.left), InOrder(t.right), After(ctx);
    Regroup(a, l, t.item, r, b);
    SortedAround(a + l, t.item, r + b, x);
    assert [t.item] + (r + b) == [t.item] + r + b;
  }

  lemma Regroup(a: seq<RbNode>, l: seq<RbNode>, n: RbNode, r: seq<RbNode>, b: seq<RbNode>)
    ensures a + (l + [n] + r) + b == (a + l) + [n] + (r + b)
  {
  }

  /** The null link to the right of the last node. */
  lemma {:induction false} RightEnd(ctx: Ctx, t: Tree) returns (c: Ctx)
    requires t.Node? && After(ctx) == []
    ensures Plug(c, Leaf) == Plug(ctx, t) && c.InRight? && After(c) == []
    decreases t
  {
    if t.right.Leaf? {
      c := InRight(t.item, t.color, t.left, ctx);
    } else {
      c := RightEnd(InRight(t.item, t.color, t.left, ctx), t.right);
    }
  }

  // ---------- the tree half ----------

  /** The search has reached (ctx, t): what lies before is not later than `x`, what lies
      after is later. */
  ghost predicate Searching(tree: RbRoot, ctx: Ctx, t: Tree, x: Timespec)
    reads tree, CtxNodes(ctx), Nodes(t), Elems(Before(ctx))`timeout, Elems(After(ctx))`timeout
  {
    tree.At(ctx, t) && Plug(ctx, t) == tree.tree && AllLe(Before(ctx), x) && AllGt(After(ctx), x)
  }

  lemma SearchLeft(tree: RbRoot, ctx: Ctx, t: Tree, x: Timespec)
    requires Searching(tree, ctx, t, x) && t.Node? && Sorted(InOrder(tree.tree)) && !Le(t.item.timeout, x)
    ensures Searching(tree, InLeft(t.item, t.color, t.right, ctx), t.left, x)
  {
    PlugNodes(ctx, t);
    DescendKeeps(ctx, t, x);
    tree.Refocus(InLeft(t.item, t.color, t.right, ctx), t.left);
  }

  lemma SearchRight(tree: RbRoot, ctx: Ctx, t: Tree, x: Timespec)
    requires Searching(tree, ctx, t, x) && t.Node? && Sorted(InOrder(tree.tree)) && Le(t.item.timeout, x)
    ensures Searching(tree, InRight(t.item, t.color, t.left, ctx), t.right, x)
  {
    PlugNodes(ctx, t);
    DescendKeeps(ctx, t, x);
    tree.Refocus(InRight(t.item, t.color, t.left, ctx), t.right);
  }

  lemma SearchFacts(tree: RbRoot, ctx: Ctx, t: Tree, x: Timespec)
    requires Searching(tree, ctx, t, x)
    ensures t.Node? ==> t.item.left == Root(t.left) && t.item.right == Root(t.right)
    ensures t.Leaf? ==> Plug(ctx, Leaf) == tree.tree && AllLe(Before(ctx), x) && AllGt(After(ctx), x)
  {
    FocusFacts(tree, ctx, t);
  }

  /** The do-while loop of __poller_tree_insert: the null link after every deadline that is
      not later than the new one.  `rounds` counts the rounds of the loop: with n nodes in the
      tree there are at most 2*log2(n + 1). */
  method FindLink(timeout: Timespec, tree: RbRoot)
    returns (parent: RbNode, link: Link, ghost ctx: Ctx, ghost rounds: nat)
    requires tree.Valid() && tree.node != null && Sorted(InOrder(tree.tree))
    ensures Plug(ctx, Leaf) == tree.tree && parent == ParentOf(ctx) && LinkIs(link, ctx)
    ensures AllLe(Before(ctx), timeout) && AllGt(After(ctx), timeout)
    ensures Pow2(rounds) <= (|InOrder(tree.tree)| + 1) * (|InOrder(tree.tree)| + 1)
  {
    hide RbRoot.At, Nodes, CtxNodes, InOrder, Before, After, Searching, Sorted, AllLe, AllGt, Plug;
    tree.RootIsThere(tree.tree);
    var p := tree.node;
    parent := p;
    link := RootLink;
    ctx := Top;
    ghost var t := tree.tree;
    SearchTop(tree, timeout);
    rounds := 0;
    while p != null
      invariant rounds + Height(t) <= Height(tree.tree)
      invariant Searching(tree, ctx, t, timeout) && p == Root(t) && LinkIs(link, ctx)
      invariant p == null ==> parent == ParentOf(ctx)
      invariant Sorted(InOrder(tree.tree))
      decreases t
    {
      SearchFacts(tree, ctx, t, timeout);
      parent := p;
      rounds := rounds + 1;
      if TimeoutCmp(timeout, p.timeout) < 0 {
        SearchLeft(tree, ctx, t, timeout);
        link := LeftLink;
        p := p.left;
        ctx, t := InLeft(parent, t.color, t.right, ctx), t.left;
      } else {
        SearchRight(tree, ctx, t, timeout);
        link := RightLink;
        p := p.right;
        ctx, t := InRight(parent, t.color, t.left, ctx), t.right;
      }
    }
    SearchFacts(tree, ctx, t, timeout);
    ShortSearch(tree, rounds);
  }

  lemma ShortSearch(tree: RbRoot, rounds: nat)
    requires tree.Valid() && rounds <= Height(tree.tree)
    ensures Pow2(rounds) <= (|InOrder(tree.tree)| + 1) * (|InOrder(tree.tree)| + 1)
  {
    HeightBound(tree.tree);
    Pow2Monotone(rounds, Height(tree.tree));
  }

  lemma SearchTop(tree: RbRoot, x: Timespec)
    requires tree.Valid()
    ensures Searching(tree, Top, tree.tree, x)
  {
  }

  /** Where the new node goes: after everything not later than it, before everything later. */
  ghost predicate InsertedAt(s: seq<RbNode>, n: RbNode, i: nat, s': seq<RbNode>)
    reads Elems(s)`timeout, n`timeout
  {
    i <= |s| && s' == s[..i] + [n] + s[i..] && AllLe(s[..i], n.timeout) && AllGt(s[i..], n.timeout)
  }

  /** The fields of struct poller that hold deadlines. */
  class TimerQueue {
    const timeoTree: RbRoot
    var treeFirst: RbNode?
    var treeLast: RbNode?
    var timeoList: seq<RbNode>
    /** The time in the timerfd; none when it is disarmed or has run out. */
    var timerfd: Option<Timespec>
    /** The timerfd has run out and epoll_wait has not reported it yet: a wake-up is pending. */
    var wake: bool

    constructor ()
      ensures TreeValid() && TreeSeq() == [] && timeoTree.repr == {} && timeoList == [] && timerfd == None && !wake
      ensures fresh(timeoTree)
    {
      timeoTree := new RbRoot();
      treeFirst, treeLast := null, null;
      timeoList := [];
      timerfd := None;
      wake := false;
    }

    ghost function TreeSeq(): seq<RbNode>
      reads timeoTree`tree
    {
      InOrder(timeoTree.tree)
    }

    ghost predicate TreeValid()
      reads this`treeFirst, this`treeLast, timeoTree, timeoTree.repr
    {
      timeoTree.Valid() && Elems(TreeSeq()) == timeoTree.repr && treeFirst == Head(TreeSeq()) && treeLast == Last(TreeSeq())
      && Sorted(TreeSeq()) && forall n | n in timeoTree.repr :: n.inRbtree
    }

    /** The place of the new node, and the cached ends once it is there. */
    method TreePosition(node: RbNode) returns (parent: RbNode?, link: Link, ghost ctx: Ctx)
      requires TreeValid() && node !in timeoTree.repr
      modifies this`treeFirst, this`treeLast
      ensures Plug(ctx, Leaf) == timeoTree.tree && parent == ParentOf(ctx) && LinkIs(link, ctx)
      ensures AllLe(Before(ctx), node.timeout) && AllGt(After(ctx), node.timeout)
      ensures TreeSeq() == Before(ctx) + After(ctx)
      ensures treeFirst == Head(Before(ctx) + [node] + After(ctx)) && treeLast == Last(Before(ctx) + [node] + After(ctx))
    {
      hide RbRoot.Valid, InOrder, Before, After, Plug;
      parent, link := null, RootLink;
      ctx := Top;
      RootIsEmpty(timeoTree);
      ghost var first, last := treeFirst, treeLast;
      if timeoTree.node == null {
        TopEnds();
        treeFirst := node;
        treeLast := node;
      } else if TimeoutCmp(node.timeout, treeLast.timeout) >= 0 {
        parent := treeLast;
        link := RightLink;
        ctx := LastLink(timeoTree, node.timeout);
        treeLast := node;
      } else {
        ghost var rounds;
        parent, link, ctx, rounds := FindLink(node.timeout, timeoTree);
        FirstLink(timeoTree, ctx);
        LinkSequence(timeoTree, ctx);
        LaterRemains(Before(ctx), After(ctx), node.timeout);
        if link == LeftLink && parent == treeFirst {
          treeFirst := node;
        }
      }
      EndsOfInsert(Before(ctx), node, After(ctx));
      LinkSequence(timeoTree, ctx);
    }

    /** __poller_tree_insert.  Equal deadlines stay in insertion order. */
    method TreeInsert(node: RbNode) returns (ghost i: nat)
      requires TreeValid() && node !in timeoTree.repr
      modifies this`treeFirst, this`treeLast, timeoTree`node, timeoTree`tree, timeoTree`repr, node`inRbtree
      modifies (timeoTree.repr + {node})`parent, (timeoTree.repr + {node})`left
      modifies (timeoTree.repr + {node})`right, (timeoTree.repr + {node})`color
      ensures TreeValid() && timeoTree.repr == old(timeoTree.repr) + {node}
      ensures InsertedAt(old(TreeSeq()), node, i, TreeSeq())
    {
      hide RbRoot.Valid, InOrder, Before, After, Plug, Sorted, AllLe, AllGt, Elems, Head, Last;
      var parent, link;
      ghost var ctx;
      ghost var s := TreeSeq();
      parent, link, ctx := TreePosition(node);
      ghost var s' := Before(ctx) + [node] + After(ctx);
      i := |Before(ctx)|;
      assert s[..i] == Before(ctx) && s[i..] == After(ctx);
      SortedInsert(Before(ctx), node, After(ctx));
      ElemsInsert(Before(ctx), node, After(ctx));
      node.inRbtree := true;
      RbInsert.LinkAndColor(node, parent, link, timeoTree, ctx);
      assert Sorted(s');
    }

    /** __poller_tree_erase */
    method TreeErase(node: RbNode)
      requires TreeValid() && node in timeoTree.repr
      modifies this`treeFirst, this`treeLast, timeoTree`node, timeoTree`tree, timeoTree`repr, node`inRbtree
      modifies timeoTree.repr`parent, timeoTree.repr`left, timeoTree.repr`right, timeoTree.repr`color
      ensures TreeValid() && timeoTree.repr == old(timeoTree.repr) - {node} && !node.inRbtree
      ensures TreeSeq() == Without(old(TreeSeq()), node)
    {
      hide RbRoot.Valid, InOrder, Sorted, Elems, Head, Last, Without, NextIn, PrevIn;
      ghost var s := TreeSeq();
      TreeNoDup(timeoTree);
      WithoutSorted(s, node);
      WithoutEnds(s, node);
      if node == treeFirst {
        treeFirst := Next(node, timeoTree);
      }
      if node == treeLast {
        treeLast := Prev(node, timeoTree);
      }
      RbErase.Erase(node, timeoTree);
      node.inRbtree := false;
      assert Sorted(Without(s, node));
    }

    // ---------- list and tree together ----------

    ghost predicate Valid()
      reads this`treeFirst, this`treeLast, this`timeoList, timeoTree, timeoTree.repr, Elems(timeoList)`timeout, Elems(timeoList)`inRbtree
    {
      TreeValid() && Sorted(timeoList) && NoDup(timeoList) && Elems(timeoList) !! timeoTree.repr
      && forall n | n in Elems(timeoList) :: !n.inRbtree
    }

    ghost function Pending(): set<RbNode>
      reads this`timeoList, timeoTree`repr
    {
      Elems(timeoList) + timeoTree.repr
    }

    /** No pending deadline is earlier than the time in the timerfd. */
    ghost predicate Guarded()
      reads this`timerfd, this`timeoList, timeoTree`repr, Pending()`timeout
    {
      Guards(timerfd, Pending())
    }

    /** ... or it has run out already and the poller thread is about to be woken. */
    ghost predicate Watched()
      reads this`timerfd, this`wake, this`timeoList, timeoTree`repr, Pending()`timeout
    {
      Guarded() || wake
    }

    /** timerfd_settime with an absolute time: zero disarms.  An expiration that has not been
        reported is cleared. */
    method SetTimerfd(abstime: Timespec)
      modifies this`timerfd, this`wake
      ensures timerfd == if abstime == Timespec(0, 0) then None else Some(abstime)
      ensures !wake
    {
      timerfd := if abstime == Timespec(0, 0) then None else Some(abstime);
      wake := false;
    }

    /** The kernel: the time in the timerfd is reached. */
    method Fire(now: Timespec)
      requires timerfd.Some? && Le(timerfd.value, now)
      modifies this`timerfd, this`wake
      ensures timerfd == None && wake
    {
      timerfd := None;
      wake := true;
    }

    /** list_add_tail to the deadline list. */
    method Append(node: RbNode)
      requires Valid() && node !in Pending() && !node.inRbtree
      requires timeoList == [] || Le(Last(timeoList).timeout, node.timeout)
      modifies this`timeoList
      ensures Valid() && timeoList == old(timeoList) + [node] && Pending() == old(Pending()) + {node}
    {
      hide RbRoot.Valid, InOrder, Sorted, TimerQueue.TreeValid;
      AppendSorted(timeoList, node);
      timeoList := timeoList + [node];
    }

    /** The last branch of __poller_insert_node: the deadline is before the list's end. */
    method InsertBelow(node: RbNode) returns (ghost i: nat)
      requires Valid() && node !in Pending() && node.timeout != Timespec(0, 0)
      requires timeoList != []
      modifies this`treeFirst, this`treeLast, this`timerfd, this`wake
      modifies timeoTree`node, timeoTree`tree, timeoTree`repr, node`inRbtree
      modifies (timeoTree.repr + {node})`parent, (timeoTree.repr + {node})`left
      modifies (timeoTree.repr + {node})`right, (timeoTree.repr + {node})`color
      ensures Valid() && Pending() == old(Pending()) + {node}
      ensures old(Guarded()) ==> Guarded()
      ensures old(wake) ==> wake || Guarded()
      ensures timerfd == old(timerfd) || timerfd == Some(node.timeout)
      ensures InsertedAt(old(TreeSeq()), node, i, TreeSeq())
    {
      hide RbRoot.Valid, InOrder, Sorted, AllLe, AllGt, Head, Last, NoDup;
      ghost var t, p := TreeSeq(), Pending();
      NotInSeq(timeoList, node);
      HeadIsMin(timeoList);
      i := TreeInsert(node);
      assert allocated(Elems(t)) && allocated(t) && allocated(TreeSeq());
      assert InsertedAt(t, node, i, TreeSeq());
      HeadIsMin(TreeSeq());
      HeadIn(TreeSeq());
      HeadIn(timeoList);
      assert Valid();
      if node != treeFirst {
        GuardsKept(timerfd, p, node, treeFirst);
      } else if TimeoutCmp(node.timeout, timeoList[0].timeout) < 0 {
        GuardsArmed(p, node);
        SetTimerfd(node.timeout);
      } else {
        GuardsKept(timerfd, p, node, timeoList[0]);
      }
    }

    /** __poller_insert_node */
    method InsertNode(node: RbNode)
      requires Valid() && node !in Pending() && !node.inRbtree && node.timeout != Timespec(0, 0)
      modifies this`treeFirst, this`treeLast, this`timeoList, this`timerfd, this`wake
      modifies timeoTree`node, timeoTree`tree, timeoTree`repr, node`inRbtree
      modifies (timeoTree.repr + {node})`parent, (timeoTree.repr + {node})`left
      modifies (timeoTree.repr + {node})`right, (timeoTree.repr + {node})`color
      ensures Valid() && Pending() == old(Pending()) + {node}
      ensures old(Guarded()) ==> Guarded()
      ensures old(wake) ==> wake || Guarded()
      ensures timerfd == old(timerfd) || timerfd == Some(node.timeout)
      ensures old(timeoList == [] || Le(Last(timeoList).timeout, node.timeout)) ==>
        timeoList == old(timeoList) + [node] && timeoTree.repr == old(timeoTree.repr) && TreeSeq() == old(TreeSeq())
      ensures old(timeoList != [] && !Le(Last(timeoList).timeout, node.timeout)) ==>
        timeoList == old(timeoList) && exists i :: InsertedAt(old(TreeSeq()), node, i, TreeSeq())
    {
      hide RbRoot.Valid, InOrder, Sorted, AllLe, AllGt;
      ghost var p := Pending();
      HeadIsMin(timeoList);
      HeadIsMin(TreeSeq());
      if timeoList == [] {
        Append(node);
        if treeFirst == null || TimeoutCmp(node.timeout, treeFirst.timeout) < 0 {
          GuardsArmed(p, node);
          SetTimerfd(node.timeout);
        } else {
          GuardsKept(timerfd, p, node, treeFirst);
        }
      } else if TimeoutCmp(node.timeout, timeoList[|timeoList| - 1].timeout) >= 0 {
        GuardsKept(timerfd, p, node, timeoList[|timeoList| - 1]);
        Append(node);
      } else {
        ghost var i := InsertBelow(node);
      }
    }

    /** `if (node->in_rbtree) __poller_tree_erase(...) else list_delete(...)` */
    method Remove(node: RbNode)
      requires Valid() && node in Pending()
      modifies this`treeFirst, this`treeLast, this`timeoList
      modifies timeoTree`node, timeoTree`tree, timeoTree`repr, node`inRbtree
      modifies timeoTree.repr`parent, timeoTree.repr`left, timeoTree.repr`right, timeoTree.repr`color
      ensures Valid() && Pending() == old(Pending()) - {node} && !node.inRbtree
      ensures timeoList == Without(old(timeoList), node) && TreeSeq() == Without(old(TreeSeq()), node)
      ensures timeoTree.repr == old(timeoTree.repr) - {node}
      ensures old(Guarded()) ==> Guarded()
    {
      hide RbRoot.Valid, InOrder, Sorted, Without;
      if node.inRbtree {
        WithoutAbsent(timeoList, node);
        TreeErase(node);
      } else {
        WithoutAbsent(TreeSeq(), node);
        WithoutSorted(timeoList, node);
        timeoList := Without(timeoList, node);
      }
    }

    /** __poller_set_timer: the earliest deadline goes into the timerfd, or it is disarmed. */
    method SetTimer()
      requires Valid() && (forall n | n in Pending() :: n.timeout != Timespec(0, 0))
      modifies this`timerfd, this`wake
      ensures Guarded() && (timerfd.None? <==> Pending() == {})
      ensures timerfd.Some? ==> exists n :: n in Pending() && n.timeout == timerfd.value
    {
      hide RbRoot.Valid, InOrder, Sorted;
      var node: RbNode? := null;
      HeadIsMin(timeoList);
      HeadIsMin(TreeSeq());
      HeadIn(timeoList);
      HeadIn(TreeSeq());
      if timeoList != [] {
        node := timeoList[0];
      }
      if treeFirst != null {
        if node == null || TimeoutCmp(treeFirst.timeout, node.timeout) < 0 {
          node := treeFirst;
        }
      }
      if node != null {
        SetTimerfd(node.timeout);
      } else {
        SetTimerfd(Timespec(0, 0));
      }
    }

    /** The tree loop of __poller_handle_timeout, one round. */
    method PopFirst() returns (node: RbNode)
      requires Valid() && treeFirst != null
      modifies this`treeFirst, this`treeLast, timeoTree`node, timeoTree`tree, timeoTree`repr
      modifies timeoTree.repr`parent, timeoTree.repr`left, timeoTree.repr`right, timeoTree.repr`color
      ensures Valid() && node == old(treeFirst) && TreeSeq() == old(TreeSeq())[1..] && old(TreeSeq()) == [node] + TreeSeq()
      ensures timeoTree.repr == old(timeoTree.repr) - {node} && node in old(timeoTree.repr)
    {
      hide RbRoot.Valid, InOrder, Sorted, Without, NextIn, PrevIn, NoDup;
      ghost var s := TreeSeq();
      node := treeFirst;
      TreeNoDup(timeoTree);
      HeadIn(s);
      WithoutSorted(s, node);
      WithoutEnds(s, node);
      WithoutHead(s);
      treeFirst := Next(node, timeoTree);
      RbErase.Erase(node, timeoTree);
      if treeFirst == null {
        treeLast := null;
      }
      assert Sorted(Without(s, node));
    }

    /** The list loop of __poller_handle_timeout. */
    method ExpireList(now: Timespec) returns (expired: seq<RbNode>)
      requires Valid()
      modifies this`timeoList
      ensures Valid() && old(timeoList) == expired + timeoList
      ensures AllLe(expired, now) && AllGt(timeoList, now)
    {
      hide RbRoot.Valid, InOrder, TimerQueue.TreeValid;
      ghost var l := timeoList;
      var pos := 0;
      while pos < |timeoList| && TimeoutCmp(timeoList[pos].timeout, now) <= 0
        invariant pos <= |timeoList| && Valid() && timeoList == l
        invariant AllLe(timeoList[..pos], now)
      {
        pos := pos + 1;
      }
      SliceSorted(l, pos);
      LaterStill(l, pos, now);
      expired := timeoList[..pos];
      timeoList := timeoList[pos..];
    }

    /** The tree loop of __poller_handle_timeout. */
    method ExpireTree(now: Timespec) returns (expired: seq<RbNode>)
      requires Valid()
      modifies this`treeFirst, this`treeLast, timeoTree`node, timeoTree`tree, timeoTree`repr
      modifies timeoTree.repr`parent, timeoTree.repr`left, timeoTree.repr`right, timeoTree.repr`color
      ensures Valid() && old(TreeSeq()) == expired + TreeSeq()
      ensures AllLe(expired, now) && AllGt(TreeSeq(), now)
    {
      hide RbRoot.Valid, InOrder, Sorted, NoDup, AllGt, Head, Last, TimeoutCmp;
      expired := [];
      AllOfNone(now);
      ghost var t, r := TreeSeq(), timeoTree.repr;
      assert allocated(r);
      while treeFirst != null && TimeoutCmp(treeFirst.timeout, now) <= 0
        invariant Valid() && t == expired + TreeSeq() && AllLe(expired, now)
        invariant timeoTree.repr <= r
        decreases |TreeSeq()|
      {
        DueAppended(expired, treeFirst, now);
        var node := PopFirst();
        expired := expired + [node];
      }
      TreeTop(now);
    }

    lemma TreeTop(now: Timespec)
      requires Valid() && (treeFirst == null || TimeoutCmp(treeFirst.timeout, now) > 0)
      ensures AllGt(TreeSeq(), now)
    {
      hide RbRoot.Valid, InOrder, Sorted, Elems, NoDup, AllGt, Last;
      SortedHead(TreeSeq(), now);
    }

    /** The critical section of __poller_handle_timeout: exactly what is due by `now` leaves,
        list before tree, and each part keeps its order. */
    method Expire(now: Timespec) returns (expired: seq<RbNode>)
      requires Valid()
      modifies this`treeFirst, this`treeLast, this`timeoList, timeoTree`node, timeoTree`tree, timeoTree`repr
      modifies timeoTree.repr`parent, timeoTree.repr`left, timeoTree.repr`right, timeoTree.repr`color
      ensures Valid() && Pending() == old(Pending()) - Elems(expired) && NoDup(expired)
      ensures Elems(expired) == set n | n in old(Pending()) && Le(n.timeout, now)
      ensures exists a, b :: expired == a + b && old(timeoList) == a + timeoList && old(TreeSeq()) == b + TreeSeq()
      ensures old(Guarded()) ==> Guarded()
    {
      hide RbRoot.Valid, InOrder, Sorted, Head, Last;
      ghost var l, t := timeoList, TreeSeq();
      TreeNoDup(timeoTree);
      assert allocated(Elems(l)) && allocated(Elems(t));
      var a := ExpireList(now);
      var b := ExpireTree(now);
      ExpiredExactly(a, timeoList, b, TreeSeq(), now);
      expired := a + b;
      assert l == a + timeoList && t == b + TreeSeq();
    }

    /** poller_stop: the tree is taken apart root by root, then the list follows. */
    method TakeAll() returns (taken: seq<RbNode>)
      requires Valid()
      modifies this`treeFirst, this`treeLast, this`timeoList, timeoTree`node, timeoTree`tree, timeoTree`repr
      modifies timeoTree.repr`parent, timeoTree.repr`left, timeoTree.repr`right, timeoTree.repr`color
      ensures Valid() && Pending() == {} && treeFirst == null && treeLast == null
      ensures NoDup(taken) && Elems(taken) == old(Pending())
    {
      hide RbRoot.Valid, InOrder, Sorted, NoDup, Without;
      ghost var r, l := timeoTree.repr, timeoList;
      assert allocated(r);
      taken := [];
      RootIsEmpty(timeoTree);
      TreeNoDup(timeoTree);
      NoDupEnds(taken);
      while timeoTree.node != null
        invariant timeoList == l && timeoTree.Valid() && Elems(TreeSeq()) == timeoTree.repr && timeoTree.repr <= r
        invariant NoDup(TreeSeq()) && NoDup(taken) && Elems(taken) == r - timeoTree.repr
        invariant timeoTree.node == null <==> TreeSeq() == []
        decreases timeoTree.repr
      {
        var node := timeoTree.node;
        RootStored(timeoTree);
        WithoutNoDup(TreeSeq(), node);
        RbErase.Erase(node, timeoTree);
        RootIsEmpty(timeoTree);
        NoDupPush(taken, node);
        taken := taken + [node];
      }
      NoDupSum(taken, timeoList);
      NoDupEnds(timeoList);
      taken := taken + timeoList;
      timeoList := [];
      treeFirst := null;
      treeLast := null;
    }
  }

  /** The timer set to `t` wakes the poller no later than any deadline in `p`. */
  ghost predicate Guards(t: Option<Timespec>, p: set<RbNode>)
    reads p`timeout
  {
    forall n | n in p :: t.Some? && Le(t.value, n.timeout)
  }

  lemma GuardsKept(t: Option<Timespec>, p: set<RbNode>, n: RbNode, m: RbNode)
    requires m in p && Le(m.timeout, n.timeout)
    ensures Guards(t, p) ==> Guards(t, p + {n})
  {
  }

  lemma GuardsArmed(p: set<RbNode>, n: RbNode)
    requires forall m | m in p :: Le(n.timeout, m.timeout)
    ensures Guards(Some(n.timeout), p + {n})
  {
  }

  lemma NoDupEnds(s: seq<RbNode>)
    ensures NoDup<RbNode>([]) && Sorted([])
  {
  }

  lemma NoDupSum(a: seq<RbNode>, b: seq<RbNode>)
    requires NoDup(a) && NoDup(b) && Elems(a) !! Elems(b)
    ensures NoDup(a + b) && Elems(a + b) == Elems(a) + Elems(b)
  {
    var s := a + b;
    forall i, j | 0 <= i < j < |s| ensures s[i] != s[j] {
      if i < |a| <= j {
        assert a[i] in Elems(a) && b[j - |a|] in Elems(b);
      }
    }
    assert forall x | x in a :: x in s;
    assert forall x | x in b :: x in s;
  }

  lemma NoDupPush(a: seq<RbNode>, n: RbNode)
    requires NoDup(a) && n !in Elems(a)
    ensures NoDup(a + [n]) && Elems(a + [n]) == Elems(a) + {n}
  {
    NoDupSum(a, [n]);
  }

  lemma WithoutNoDup(s: seq<RbNode>, x: RbNode)
    requires NoDup(s) && x in Elems(s)
    ensures NoDup(Without(s, x)) && Elems(Without(s, x)) == Elems(s) - {x}
  {
    var a, b := WithoutSplit(s, x);
    assert forall i :: 0 <= i < |a + b| ==> (a + b)[i] == s[if i < |a| then i else i + 1];
  }

  lemma RootStored(tree: RbRoot)
    requires tree.Valid() && tree.node != null
    ensures tree.node in tree.repr
  {
    tree.RootIsThere(tree.tree);
  }

  lemma NotInSeq<T>(s: seq<T>, x: T)
    requires x !in Elems(s)
    ensures forall i :: 0 <= i < |s| ==> s[i] != x
  {
  }

  lemma HeadIn(s: seq<RbNode>)
    ensures s != [] ==> Head(s) in Elems(s) && Head(s) == s[0]
    ensures s == [] ==> Head(s) == null
  {
  }

  lemma ElemsInsert<T>(a: seq<T>, n: T, b: seq<T>)
    ensures Elems(a + [n] + b) == Elems(a + b) + {n}
  {
  }

  lemma TopEnds()
    ensures Before(Top) == [] && After(Top) == []
    ensures Plug(Top, Leaf) == Leaf
  {
  }

  lemma RootIsEmpty(tree: RbRoot)
    requires tree.Valid()
    ensures tree.node == null <==> InOrder(tree.tree) == []
    ensures tree.node == null ==> tree.tree == Leaf
  {
    tree.RootIsThere(tree.tree);
  }

  lemma LinkSequence(tree: RbRoot, ctx: Ctx)
    requires tree.Valid() && Plug(ctx, Leaf) == tree.tree
    ensures InOrder(tree.tree) == Before(ctx) + After(ctx)
  {
    PlugNodes(ctx, Leaf);
    assert Before(ctx) + [] + After(ctx) == Before(ctx) + After(ctx);
  }

  lemma EndsOfInsert(a: seq<RbNode>, n: RbNode, b: seq<RbNode>)
    ensures Head(a + [n] + b) == (if a == [] then n else Head(a + b))
    ensures Last(a + [n] + b) == (if b == [] then n else Last(a + b))
  {
  }

  /** The right link of the last node. */
  lemma LastLink(tree: RbRoot, x: Timespec) returns (ctx: Ctx)
    requires tree.Valid() && InOrder(tree.tree) != [] && Sorted(InOrder(tree.tree))
    requires Le(Last(InOrder(tree.tree)).timeout, x)
    ensures Plug(ctx, Leaf) == tree.tree && ParentOf(ctx) == Last(InOrder(tree.tree)) && LinkIs(RightLink, ctx)
    ensures After(ctx) == [] && Before(ctx) != [] && AllLe(Before(ctx), x)
  {
    ctx := RightEnd(Top, tree.tree);
    LinkSequence(tree, ctx);
    var s := InOrder(tree.tree);
    assert s == Before(ctx);
    assert s == s[..|s| - 1] + [s[|s| - 1]] + [];
    SortedAround(s[..|s| - 1], s[|s| - 1], [], x);
    assert s[..|s| - 1] + [s[|s| - 1]] == s;
  }

  /** A null link is before everything exactly if it is the left link of the first node. */
  lemma FirstLink(tree: RbRoot, ctx: Ctx)
    requires tree.Valid() && Plug(ctx, Leaf) == tree.tree && !ctx.Top?
    ensures (ctx.InLeft? && ctx.item == Head(InOrder(tree.tree))) <==> Before(ctx) == []
  {
    LinkSequence(tree, ctx);
    DistinctNoDup(tree.tree);
    if ctx.InLeft? {
      assert After(ctx)[0] == ctx.item;
      var s, k := InOrder(tree.tree), |Before(ctx)|;
      assert s[k] == ctx.item;
    }
  }

  lemma LaterRemains(a: seq<RbNode>, b: seq<RbNode>, x: Timespec)
    requires AllLe(a, x) && a + b != [] && !Le(Last(a + b).timeout, x)
    ensures b != []
  {
    assert a + [] == a;
  }

  lemma TreeNoDup(tree: RbRoot)
    requires tree.Valid()
    ensures NoDup(InOrder(tree.tree))
  {
    DistinctNoDup(tree.tree);
  }

  lemma {:induction false} WithoutSplit<T>(s: seq<T>, x: T) returns (a: seq<T>, b: seq<T>)
    requires NoDup(s) && x in Elems(s)
    ensures s == a + [x] + b && x !in a && x !in b && Without(s, x) == a + b
  {
    var i :| 0 <= i < |s| && s[i] == x;
    a, b := s[..i], s[i + 1..];
    WithoutMiddle(a, x, b);
  }

  lemma WithoutSorted(s: seq<RbNode>, x: RbNode)
    requires NoDup(s) && Sorted(s) && x in Elems(s)
    ensures Sorted(Without(s, x)) && NoDup(Without(s, x)) && Elems(Without(s, x)) == Elems(s) - {x}
  {
    var a, b := WithoutSplit(s, x);
    var w := a + b;
    forall i, j | 0 <= i < j < |w| ensures Le(w[i].timeout, w[j].timeout) && w[i] != w[j] {
      var i', j' := if i < |a| then i else i + 1, if j < |a| then j else j + 1;
      assert w[i] == s[i'] && w[j] == s[j'];
    }
  }

  /** The cached ends after an erase. */
  lemma WithoutEnds(s: seq<RbNode>, x: RbNode)
    requires NoDup(s) && x in Elems(s)
    ensures Head(Without(s, x)) == (if x == Head(s) then NextIn(s, x) else Head(s))
    ensures Last(Without(s, x)) == (if x == Last(s) then PrevIn(s, x) else Last(s))
  {
    var a, b := WithoutSplit(s, x);
    NextMiddle(a, x, b);
    PrevMiddle(a, x, b);
    assert b != [] ==> Last(s) == b[|b| - 1] && b[|b| - 1] in b;
    assert a != [] ==> Head(s) == a[0] && a[0] in a;
  }

  lemma HeadIsMin(s: seq<RbNode>)
    requires Sorted(s)
    ensures forall n | n in Elems(s) :: Le(Head(s).timeout, n.timeout)
  {
  }

  lemma AppendSorted(s: seq<RbNode>, n: RbNode)
    requires Sorted(s) && NoDup(s) && n !in Elems(s) && (s != [] ==> Le(Last(s).timeout, n.timeout))
    ensures Sorted(s + [n]) && NoDup(s + [n]) && Elems(s + [n]) == Elems(s) + {n}
  {
    if s != [] {
      assert s == s[..|s| - 1] + [s[|s| - 1]] + [];
      SortedAround(s[..|s| - 1], s[|s| - 1], [], n.timeout);
      assert s[..|s| - 1] + [s[|s| - 1]] == s;
    }
    SortedInsert(s, n, []);
    assert s + [n] + [] == s + [n] && s + [] == s;
  }

  lemma WithoutHead<T>(s: seq<T>)
    requires NoDup(s) && s != []
    ensures Without(s, s[0]) == s[1..] && s == [s[0]] + s[1..]
  {
    WithoutAbsent(s[1..], s[0]);
  }

  /** Cutting a sorted sequence without repetition. */
  lemma SliceSorted(s: seq<RbNode>, i: nat)
    requires i <= |s|
    ensures Elems(s) == Elems(s[..i]) + Elems(s[i..])
    ensures Sorted(s) ==> Sorted(s[i..])
    ensures NoDup(s) ==> NoDup(s[..i]) && NoDup(s[i..]) && Elems(s[..i]) !! Elems(s[i..])
  {
    assert s == s[..i] + s[i..];
  }

  lemma LaterStill(s: seq<RbNode>, i: nat, x: Timespec)
    requires Sorted(s) && i <= |s| && (i < |s| ==> !Le(s[i].timeout, x))
    ensures AllGt(s[i..], x)
  {
  }

  lemma SortedHead(s: seq<RbNode>, x: Timespec)
    requires Sorted(s) && (Head(s) != null ==> !Le(Head(s).timeout, x))
    ensures AllGt(s, x)
  {
  }

  lemma ExpiredExactly(a: seq<RbNode>, l: seq<RbNode>, b: seq<RbNode>, t: seq<RbNode>, now: Timespec)
    requires AllLe(a, now) && AllGt(l, now) && AllLe(b, now) && AllGt(t, now)
    requires NoDup(a + l) && NoDup(b + t) && Elems(a + l) !! Elems(b + t)
    ensures NoDup(a + b) && Elems(a + b) == Elems(a) + Elems(b)
    ensures Elems(a + b) == set n | n in Elems(a + l) + Elems(b + t) && Le(n.timeout, now)
    ensures Elems(l) + Elems(t) == Elems(a + l) + Elems(b + t) - Elems(a + b)
  {
    assert a == (a + l)[..|a|] && b == (b + t)[..|b|];
    assert Elems(a + l) == Elems(a) + Elems(l) && Elems(b + t) == Elems(b) + Elems(t) && Elems(a + b) == Elems(a) + Elems(b);
    SliceSorted(a + l, |a|);
    SliceSorted(b + t, |b|);
    assert (a + l)[|a|..] == l && (b + t)[|b|..] == t;
    assert forall n | n in Elems(a) + Elems(b) :: Le(n.timeout, now);
    assert forall n | n in Elems(l) + Elems(t) :: !Le(n.timeout, now);
    forall i, j | 0 <= i < j < |a + b| ensures (a + b)[i] != (a + b)[j] {
      if i < |a| <= j { assert a[i] in Elems(a + l) && b[j - |a|] in Elems(b + t); }
    }
  }
}
