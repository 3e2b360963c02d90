/** The poller's index of descriptors and its containers (src/kernel/poller.cc), and the way
    several pollers share one index (src/kernel/mpoller.h). */
module Poller {
  import opened Common
  import opened RedBlack
  import opened RbTree
  import opened RbWalk
  import opened TimerQueue

  // ---------- deadlines ----------

  /** __poller_node_set_timeout: the deadline `timeout` milliseconds after `now`. */
  function DeadlineAfter(now: Timespec, timeout: nat): Timespec {
    Carry(now.sec + timeout / 1000, now.nsec + timeout % 1000 * 1_000_000)
  }

  /** The deadline of poller_add_timer. */
  function TimerDeadline(now: Timespec, value: Timespec): Timespec {
    Carry(now.sec + value.sec, now.nsec + value.nsec)
  }

  function Carry(sec: int, nsec: int): Timespec {
    if nsec >= NANO then Timespec(sec + 1, nsec - NANO) else Timespec(sec, nsec)
  }

  /** A deadline is normalised and lies exactly `timeout` milliseconds after the clock, so the
      field-wise order of deadlines is the order of instants (CmpIsInstantOrder). */
  lemma DeadlineExact(now: Timespec, timeout: nat)
    requires Normal(now)
    ensures Normal(DeadlineAfter(now, timeout))
    ensures Nanoseconds(DeadlineAfter(now, timeout)) == Nanoseconds(now) + timeout * 1_000_000
  {
    assert timeout == timeout / 1000 * 1000 + timeout % 1000;
    assert (now.sec + timeout / 1000) * NANO == now.sec * NANO + timeout / 1000 * NANO;
  }

  lemma TimerDeadlineExact(now: Timespec, value: Timespec)
    requires Normal(now) && Normal(value)
    ensures Normal(TimerDeadline(now, value))
    ensures Nanoseconds(TimerDeadline(now, value)) == Nanoseconds(now) + Nanoseconds(value)
  {
  }

  // ---------- the index ----------

  /** mpoller: the poller in charge of a descriptor.  The conversion to unsigned int takes a
      negative descriptor to the top of the 32-bit range. */
  function Route(fd: int, nthreads: nat): (index: nat)
    requires nthreads > 0
    ensures index < nthreads
    ensures fd >= 0 ==> exists q: nat :: fd == q * nthreads + index
  {
    var u := if fd < 0 then fd + 0x1_0000_0000 else fd;
    assert fd >= 0 ==> fd == (fd / nthreads) * nthreads + fd % nthreads;
    u % nthreads
  }

  /** Of the slots routed to poller `me`, exactly those of its live nodes are filled, each with
      the node of that descriptor; timers have no slot. */
  ghost predicate IndexAgrees(slots: seq<RbNode?>, live: set<RbNode>, me: nat, nthreads: nat)
    requires nthreads > 0
    reads live`fd
  {
    && (forall i :: 0 <= i < |slots| && Route(i, nthreads) == me && slots[i] != null ==>
          slots[i] in live && slots[i].fd == i)
    && (forall n | n in live && n.fd >= 0 :: n.fd < |slots| && Route(n.fd, nthreads) == me && slots[n.fd] == n)
  }

  /** What one poller writes to the shared index does not concern any other poller. */
  lemma ForeignSlots(a: seq<RbNode?>, b: seq<RbNode?>, live: set<RbNode>, writer: nat, me: nat, nthreads: nat)
    requires nthreads > 0 && writer != me && |a| == |b|
    requires forall i :: 0 <= i < |a| && Route(i, nthreads) != writer ==> b[i] == a[i]
    ensures IndexAgrees(a, live, me, nthreads) <==> IndexAgrees(b, live, me, nthreads)
  {
    hide Route;
    assert forall i :: 0 <= i < |a| && Route(i, nthreads) == me ==> b[i] == a[i];
  }

  /** The pollers of an mpoller divide the shared index among them: the node in a slot is live in
      the poller the descriptor is routed to, and in no other. */
  lemma EachSlotOnce(slots: seq<RbNode?>, lives: seq<set<RbNode>>, i: nat, me: nat)
    requires |lives| > 0 && i < |slots| && slots[i] != null && me < |lives|
    requires forall k :: 0 <= k < |lives| ==> IndexAgrees(slots, lives[k], k, |lives|)
    ensures slots[i] in lives[me] <==> me == Route(i, |lives|)
  {
    hide Route;
    var home := Route(i, |lives|);
    assert IndexAgrees(slots, lives[home], home, |lives|);
    assert IndexAgrees(slots, lives[me], me, |lives|);
  }

  lemma IndexInsert(slots: seq<RbNode?>, live: set<RbNode>, n: RbNode, me: nat, nthreads: nat)
    requires nthreads > 0 && IndexAgrees(slots, live, me, nthreads)
    requires 0 <= n.fd < |slots| && Route(n.fd, nthreads) == me && slots[n.fd] == null
    ensures IndexAgrees(slots[n.fd := n], live + {n}, me, nthreads)
  {
    hide Route;
  }

  lemma IndexDelete(slots: seq<RbNode?>, live: set<RbNode>, n: RbNode, me: nat, nthreads: nat)
    requires nthreads > 0 && IndexAgrees(slots, live, me, nthreads) && n in live && n.fd >= 0
    ensures IndexAgrees(slots[n.fd := null], live - {n}, me, nthreads)
  {
    hide Route;
  }

  lemma IndexTimer(slots: seq<RbNode?>, live: set<RbNode>, n: RbNode, me: nat, nthreads: nat)
    requires nthreads > 0 && IndexAgrees(slots, live, me, nthreads) && n.fd < 0
    ensures IndexAgrees(slots, live + {n}, me, nthreads) && IndexAgrees(slots, live - {n}, me, nthreads)
  {
    hide Route;
  }

  lemma WithoutElems(s: seq<RbNode>, x: RbNode)
    requires NoDup(s)
    ensures NoDup(Without(s, x)) && Elems(Without(s, x)) == Elems(s) - {x}
  {
    if x in s {
      var a, b := WithoutSplit(s, x);
      assert forall i :: 0 <= i < |a + b| ==> (a + b)[i] == s[if i < |a| then i else i + 1];
    } else {
      WithoutAbsent(s, x);
    }
  }

  datatype Errno = EBADF | EMFILE | EEXIST | ENOENT | EEPOLL

  /** 0, or -1 with errno. */
  datatype Ret = Success | Failure(errno: Errno)

  /** What poller_stop, poller_del and poller_mod leave to their caller to call back. */
  datatype Displaced = Nobody | Piped(node: RbNode) | Callback(node: RbNode)

  class Poller {
    const timers: TimerQueue
    const nodes: array<RbNode?>
    /** The place among the pollers that share `nodes`. */
    const me: nat
    const nthreads: nat
    var noTimeoList: seq<RbNode>
    /** The nodes written to the pipe and not read yet. */
    var pipe: seq<RbNode>
    var stopped: bool
    /** The poller thread has set the timer and is in epoll_wait, or about to enter it. */
    var waiting: bool

    constructor (buf: array<RbNode?>, me: nat, nthreads: nat)
      requires me < nthreads && forall i :: 0 <= i < buf.Length ==> buf[i] == null
      ensures this.nodes == buf && this.me == me && this.nthreads == nthreads
      ensures Valid() && Live() == {} && stopped && !waiting && pipe == []
      ensures fresh(timers) && fresh(timers.timeoTree)
    {
      timers := new TimerQueue();
      this.nodes := buf;
      this.me := me;
      this.nthreads := nthreads;
      noTimeoList := [];
      pipe := [];
      stopped := true;
      waiting := false;
    }

    ghost function Live(): set<RbNode>
      reads this`noTimeoList, timers`timeoList, timers.timeoTree`repr
    {
      timers.Pending() + Elems(noTimeoList)
    }

    /** Each live node is in exactly one of list, tree and no-deadline list, and `inRbtree`
        tells the tree from the two lists. */
    ghost predicate Containers()
      reads this`noTimeoList, timers`treeFirst, timers`treeLast, timers`timeoList
      reads timers.timeoTree, timers.timeoTree.repr
      reads Elems(timers.timeoList)`timeout, Elems(timers.timeoList)`inRbtree, Elems(noTimeoList)`inRbtree
    {
      timers.Valid() && NoDup(noTimeoList) && Elems(noTimeoList) !! timers.Pending()
      && forall n | n in Elems(noTimeoList) :: !n.inRbtree
    }

    ghost predicate Index(live: set<RbNode>)
      reads nodes, live`fd
    {
      me < nthreads && IndexAgrees(nodes[..], live, me, nthreads)
    }

    /** A node in the pipe is flagged as removed, a live one is not. */
    ghost predicate Flags(live: set<RbNode>, piped: seq<RbNode>)
      reads live`removed, Elems(piped)`removed
    {
      NoDup(piped) && (forall n | n in Elems(piped) :: n.removed) && (forall n | n in live :: !n.removed)
    }

    /** Deadlines are normalised times after the clock's zero; and as long as the poller thread
        waits, no deadline can pass unnoticed. */
    ghost predicate Clocked()
      reads this`noTimeoList, this`waiting, timers`timeoList, timers`timerfd, timers`wake, timers.timeoTree`repr
      reads timers.Pending()`timeout
    {
      && (forall n | n in timers.Pending() :: Clock(n.timeout))
      && (timers.timerfd.Some? ==> Normal(timers.timerfd.value))
      && (waiting ==> timers.Watched())
    }

    ghost predicate Valid()
      reads this, timers, timers.timeoTree, timers.timeoTree.repr, nodes
      reads Elems(timers.timeoList)`timeout, Elems(timers.timeoList)`inRbtree, Elems(noTimeoList)`inRbtree
      reads Live()`fd, Live()`removed, Elems(pipe)`removed, timers.Pending()`timeout
    {
      Containers() && Index(Live()) && Flags(Live(), pipe) && Clocked()
    }

    /** `(size_t)fd >= max_open_files` and the errno for it. */
    function BadFd(fd: int): (r: Ret)
      ensures r == Success <==> 0 <= fd < nodes.Length
      ensures r == Failure(EBADF) <==> fd < 0
      ensures r == Failure(EMFILE) <==> fd >= nodes.Length
    {
      if fd < 0 then Failure(EBADF) else if fd >= nodes.Length then Failure(EMFILE) else Success
    }

    // ---------- containers ----------

    /** With a deadline to the deadlines, without one to the end of the no-deadline list. */
    method Place(node: RbNode, timed: bool)
      requires Containers() && Clocked() && node !in Live() && !node.inRbtree
      requires timed ==> Clock(node.timeout)
      modifies this`noTimeoList
      modifies timers`treeFirst, timers`treeLast, timers`timeoList, timers`timerfd, timers`wake
      modifies timers.timeoTree`node, timers.timeoTree`tree, timers.timeoTree`repr, node`inRbtree
      modifies (timers.timeoTree.repr + {node})`parent, (timers.timeoTree.repr + {node})`left
      modifies (timers.timeoTree.repr + {node})`right, (timers.timeoTree.repr + {node})`color
      ensures Containers() && Clocked() && Live() == old(Live()) + {node}
      ensures timed ==> timers.Pending() == old(timers.Pending()) + {node} && noTimeoList == old(noTimeoList)
      ensures !timed ==> timers.Pending() == old(timers.Pending()) && noTimeoList == old(noTimeoList) + [node]
      ensures old(timers.Guarded()) ==> timers.Guarded()
    {
      hide TimerQueue.Valid;
      if timed {
        timers.InsertNode(node);
      } else {
        noTimeoList := noTimeoList + [node];
      }
    }

    /** `if (node->in_rbtree) __poller_tree_erase(...) else list_delete(...)` */
    method Unplace(node: RbNode)
      requires Containers() && Clocked() && node in Live()
      modifies this`noTimeoList
      modifies timers`treeFirst, timers`treeLast, timers`timeoList
      modifies timers.timeoTree`node, timers.timeoTree`tree, timers.timeoTree`repr, node`inRbtree
      modifies timers.timeoTree.repr`parent, timers.timeoTree.repr`left
      modifies timers.timeoTree.repr`right, timers.timeoTree.repr`color
      ensures Containers() && Clocked() && Live() == old(Live()) - {node} && !node.inRbtree
      ensures timers.Pending() == old(timers.Pending()) - {node} && timers.timeoTree.repr <= old(timers.timeoTree.repr)
      ensures Elems(noTimeoList) == old(Elems(noTimeoList)) - {node}
      ensures old(timers.Guarded()) ==> timers.Guarded()
    {
      hide RbRoot.Valid, InOrder, Sorted, Without, NoDup, Guards, Last, Head;
      if node.inRbtree || node in timers.timeoList {
        timers.Remove(node);
      } else {
        WithoutElems(noTimeoList, node);
        noTimeoList := Without(noTimeoList, node);
      }
    }

    // ---------- operations of callers ----------

    /** The node in a slot, if there is one. */
    ghost function At(fd: int): set<RbNode>
      reads nodes
    {
      if 0 <= fd < nodes.Length && nodes[fd] != null then {nodes[fd]} else {}
    }

    predicate Mine(fd: int) {
      0 <= fd < nodes.Length ==> nthreads > 0 && Route(fd, nthreads) == me
    }

    predicate Clock(now: Timespec) { Normal(now) && Nanoseconds(now) > 0 }

    /** __poller_new_node */
    method NewNode(fd: int, timeout: int, now: Timespec) returns (node: RbNode)
      ensures fresh(node) && node.fd == fd && !node.inRbtree && !node.removed
      ensures timeout >= 0 ==> node.timeout == DeadlineAfter(now, timeout)
    {
      node := AllocNode();
      node.fd := fd;
      node.inRbtree := false;
      node.removed := false;
      if timeout >= 0 {
        node.timeout := DeadlineAfter(now, timeout);
      }
    }

    /** All of Valid() except that the slot of `fd` is left open. */
    ghost predicate ValidBut(fd: int)
      reads this, timers, timers.timeoTree, timers.timeoTree.repr, nodes
      reads Elems(timers.timeoList)`timeout, Elems(timers.timeoList)`inRbtree, Elems(noTimeoList)`inRbtree
      reads Live()`fd, Live()`removed, Elems(pipe)`removed, timers.Pending()`timeout
    {
      Containers() && Flags(Live(), pipe) && Clocked() && me < nthreads && 0 <= fd < nodes.Length
      && IndexAgrees(nodes[..][fd := null], Live(), me, nthreads)
    }

    /** `__poller_insert_node` or `list_add_tail(no_timeo_list)`, and the slot. */
    method Accept(node: RbNode, timed: bool)
      requires ValidBut(node.fd) && node !in Live() && node !in pipe
      requires !node.inRbtree && !node.removed && Route(node.fd, nthreads) == me
      requires timed ==> Clock(node.timeout)
      modifies this`noTimeoList, nodes
      modifies timers`treeFirst, timers`treeLast, timers`timeoList, timers`timerfd, timers`wake
      modifies timers.timeoTree`node, timers.timeoTree`tree, timers.timeoTree`repr, node`inRbtree
      modifies (timers.timeoTree.repr + {node})`parent, (timers.timeoTree.repr + {node})`left, (timers.timeoTree.repr + {node})`right, (timers.timeoTree.repr + {node})`color
      ensures Valid() && Live() == old(Live()) + {node} && nodes[..] == old(nodes[..])[node.fd := node]
      ensures timers.Pending() == old(timers.Pending()) + (if timed then {node} else {})
      ensures old(timers.Guarded()) ==> timers.Guarded()
    {
      hide Poller.Containers, Poller.Clocked, Guards, Route, IndexAgrees, NoDup, Clock;
      ghost var live, slots := Live(), nodes[..][node.fd := null];
      assert nodes[..][node.fd := node] == slots[node.fd := node];
      IndexInsert(slots, live, node, me, nthreads);
      Place(node, timed);
      nodes[node.fd] := node;
      assert nodes[..] == slots[node.fd := node];
    }

    /** poller_add; `epollOk` is the outcome of epoll_ctl. */
    method Add(fd: int, timeout: int, now: Timespec, epollOk: bool) returns (r: Ret, node: RbNode?)
      requires Valid() && Mine(fd) && Clock(now)
      modifies this`noTimeoList, nodes
      modifies timers`treeFirst, timers`treeLast, timers`timeoList, timers`timerfd, timers`wake
      modifies timers.timeoTree`node, timers.timeoTree`tree, timers.timeoTree`repr, Live()`inRbtree
      modifies timers.timeoTree.repr`parent, timers.timeoTree.repr`left, timers.timeoTree.repr`right, timers.timeoTree.repr`color
      ensures Valid()
      ensures fd < 0 ==> r == Failure(EBADF)
      ensures fd >= nodes.Length ==> r == Failure(EMFILE)
      ensures 0 <= fd < nodes.Length && old(nodes[..])[fd] != null ==> r == Failure(EEXIST)
      ensures 0 <= fd < nodes.Length && old(nodes[..])[fd] == null ==> r == if epollOk then Success else Failure(EEPOLL)
      ensures r.Success? ==> (
        && node != null && fresh(node) && nodes[..] == old(nodes[..])[fd := node]
        && Live() == old(Live()) + {node}
        && timers.Pending() == (if timeout >= 0 then old(timers.Pending()) + {node} else old(timers.Pending()))
        && (timeout >= 0 ==> node.timeout == DeadlineAfter(now, timeout)))
      ensures r.Failure? ==> Live() == old(Live()) && nodes[..] == old(nodes[..]) && timers.Pending() == old(timers.Pending())
      ensures old(timers.Guarded()) ==> timers.Guarded()
    {
      hide Poller.Containers, Poller.Clocked, Guards, Route, IndexAgrees, NoDup;
      node := null;
      r := BadFd(fd);
      if r.Failure? {
        return;
      }
      assert allocated(Live()) && allocated(pipe);
      var n := NewNode(fd, timeout, now);
      if nodes[fd] != null {
        r := Failure(EEXIST);
      } else if !epollOk {
        r := Failure(EEPOLL);
      } else {
        assert nodes[..][fd := null] == nodes[..];
        Accept(n, timeout >= 0);
        node := n;
      }
    }

    /** The node in a slot leaves its container. */
    method Detach(fd: int, node: RbNode)
      requires Valid() && 0 <= fd < nodes.Length && nodes[fd] == node && Route(fd, nthreads) == me
      modifies this`noTimeoList
      modifies timers`treeFirst, timers`treeLast, timers`timeoList
      modifies timers.timeoTree`node, timers.timeoTree`tree, timers.timeoTree`repr, node`inRbtree
      modifies timers.timeoTree.repr`parent, timers.timeoTree.repr`left, timers.timeoTree.repr`right, timers.timeoTree.repr`color
      ensures ValidBut(fd) && Live() == old(Live()) - {node} && node in old(Live()) && node.fd == fd && !node.inRbtree
      ensures timers.Pending() == old(timers.Pending()) - {node} && timers.timeoTree.repr <= old(timers.timeoTree.repr)
      ensures old(timers.Guarded()) ==> timers.Guarded()
    {
      hide Poller.Containers, Poller.Clocked, Guards, Route, NoDup;
      DetachFacts(fd, node);
      Unplace(node);
    }

    lemma DetachFacts(fd: int, node: RbNode)
      requires Valid() && 0 <= fd < nodes.Length && nodes[fd] == node && Route(fd, nthreads) == me
      ensures node in Live() && node.fd == fd
      ensures IndexAgrees(nodes[..][fd := null], Live() - {node}, me, nthreads)
    {
      hide Poller.Containers, Poller.Clocked, Guards, Route, NoDup;
      assert nodes[..][fd] == node;
      IndexDelete(nodes[..], Live(), node, me, nthreads);
    }

    /** What happens to a node that del or mod has taken out: through the pipe to the poller
        thread, or back to the caller when no poller thread runs. */
    method Displace(node: RbNode) returns (d: Displaced)
      requires Flags(Live(), pipe) && node !in Live() && node !in pipe
      modifies this`pipe, node`removed
      ensures Flags(Live(), pipe)
      ensures stopped ==> d == Callback(node) && pipe == old(pipe) && node.removed == old(node.removed)
      ensures !stopped ==> d == Piped(node) && pipe == old(pipe) + [node] && node.removed
    {
      d := Callback(node);
      if !stopped {
        node.removed := true;
        pipe := pipe + [node];
        d := Piped(node);
      }
    }

    ghost predicate Gone(node: RbNode, d: Displaced, before: seq<RbNode>)
      reads this`stopped, this`pipe, node`removed
    {
      if stopped then d == Callback(node) && pipe == before && !node.removed
      else d == Piped(node) && pipe == before + [node] && node.removed
    }

    lemma LiveNotPiped(node: RbNode)
      requires Flags(Live(), pipe) && node in Live()
      ensures node !in pipe && !node.removed
    {
    }

    /** del and mod: the node of a slot leaves its container, for the pipe or the caller. */
    method Evict(fd: int, node: RbNode) returns (d: Displaced)
      requires Valid() && 0 <= fd < nodes.Length && nodes[fd] == node && Route(fd, nthreads) == me
      modifies this`noTimeoList, this`pipe, node`removed
      modifies timers`treeFirst, timers`treeLast, timers`timeoList
      modifies timers.timeoTree`node, timers.timeoTree`tree, timers.timeoTree`repr, node`inRbtree
      modifies timers.timeoTree.repr`parent, timers.timeoTree.repr`left, timers.timeoTree.repr`right, timers.timeoTree.repr`color
      ensures ValidBut(fd) && Live() == old(Live()) - {node} && node in old(Live())
      ensures timers.Pending() == old(timers.Pending()) - {node} && timers.timeoTree.repr <= old(timers.timeoTree.repr)
      ensures Gone(node, d, old(pipe)) && pipe == if stopped then old(pipe) else old(pipe) + [node]
      ensures old(timers.Guarded()) ==> timers.Guarded()
    {
      hide Poller.Containers, Poller.Clocked, Poller.Flags, Guards, Route, IndexAgrees, NoDup;
      DetachFacts(fd, node);
      LiveNotPiped(node);
      Detach(fd, node);
      d := Displace(node);
    }

    /** poller_del */
    method Del(fd: int) returns (r: Ret, d: Displaced)
      requires Valid() && Mine(fd)
      modifies this`noTimeoList, nodes, this`pipe, At(fd)`removed
      modifies timers`treeFirst, timers`treeLast, timers`timeoList
      modifies timers.timeoTree`node, timers.timeoTree`tree, timers.timeoTree`repr, Live()`inRbtree
      modifies timers.timeoTree.repr`parent, timers.timeoTree.repr`left, timers.timeoTree.repr`right, timers.timeoTree.repr`color
      ensures Valid()
      ensures fd < 0 ==> r == Failure(EBADF)
      ensures fd >= nodes.Length ==> r == Failure(EMFILE)
      ensures 0 <= fd < nodes.Length ==> r == if old(nodes[..])[fd] != null then Success else Failure(ENOENT)
      ensures r.Success? ==> (
        var node := old(nodes[fd]);
        && nodes[..] == old(nodes[..])[fd := null] && node in old(Live()) && Live() == old(Live()) - {node}
        && Gone(node, d, old(pipe)))
      ensures r.Failure? ==> Live() == old(Live()) && nodes[..] == old(nodes[..]) && pipe == old(pipe) && d == Nobody
      ensures timers.Pending() == old(timers.Pending()) - old(At(fd))
      ensures old(timers.Guarded()) ==> timers.Guarded()
    {
      hide Poller.Containers, Poller.Clocked, Guards, Route, IndexAgrees, NoDup;
      d := Nobody;
      r := BadFd(fd);
      if r.Failure? {
        return;
      }
      var node := nodes[fd];
      if node == null {
        r := Failure(ENOENT);
        return;
      }
      ghost var slots := nodes[..];
      DetachFacts(fd, node);
      d := Evict(fd, node);
      nodes[fd] := null;
      assert nodes[..] == slots[fd := null];
      assert nodes[..][fd := null] == nodes[..];
    }

    /** The critical section of poller_mod once epoll has accepted the change. */
    method Replace(fd: int, orig: RbNode, node: RbNode, timed: bool) returns (d: Displaced)
      requires Valid() && 0 <= fd < nodes.Length && nodes[fd] == orig && Route(fd, nthreads) == me
      requires node.fd == fd && node !in Live() && node !in pipe && !node.inRbtree && !node.removed
      requires timed ==> Clock(node.timeout)
      modifies this`noTimeoList, nodes, this`pipe, orig`removed
      modifies timers`treeFirst, timers`treeLast, timers`timeoList, timers`timerfd, timers`wake
      modifies timers.timeoTree`node, timers.timeoTree`tree, timers.timeoTree`repr, orig`inRbtree, node`inRbtree
      modifies (timers.timeoTree.repr + {node})`parent, (timers.timeoTree.repr + {node})`left, (timers.timeoTree.repr + {node})`right, (timers.timeoTree.repr + {node})`color
      ensures Valid() && nodes[..] == old(nodes[..])[fd := node]
      ensures orig in old(Live()) && Live() == old(Live()) - {orig} + {node} && Gone(orig, d, old(pipe))
      ensures timers.Pending() == old(timers.Pending()) - {orig} + (if timed then {node} else {})
      ensures old(timers.Guarded()) ==> timers.Guarded()
    {
      hide Poller.Containers, Poller.Clocked, Guards, Route, IndexAgrees, NoDup;
      d := Evict(fd, orig);
      Accept(node, timed);
    }

    /** poller_mod: a new node takes the slot; the displaced one is MODIFIED. */
    method Mod(fd: int, timeout: int, now: Timespec, epollOk: bool) returns (r: Ret, node: RbNode?, d: Displaced)
      requires Valid() && Mine(fd) && Clock(now)
      modifies this`noTimeoList, nodes, this`pipe, At(fd)`removed
      modifies timers`treeFirst, timers`treeLast, timers`timeoList, timers`timerfd, timers`wake
      modifies timers.timeoTree`node, timers.timeoTree`tree, timers.timeoTree`repr, Live()`inRbtree
      modifies timers.timeoTree.repr`parent, timers.timeoTree.repr`left, timers.timeoTree.repr`right, timers.timeoTree.repr`color
      ensures Valid()
      ensures fd < 0 ==> r == Failure(EBADF)
      ensures fd >= nodes.Length ==> r == Failure(EMFILE)
      ensures 0 <= fd < nodes.Length && old(nodes[..])[fd] == null ==> r == Failure(ENOENT)
      ensures 0 <= fd < nodes.Length && old(nodes[..])[fd] != null ==> r == if epollOk then Success else Failure(EEPOLL)
      ensures r.Success? ==> (
        var orig := old(nodes[fd]);
        && node != null && fresh(node) && nodes[..] == old(nodes[..])[fd := node]
        && orig in old(Live()) && Live() == old(Live()) - {orig} + {node} && Gone(orig, d, old(pipe))
        && timers.Pending() == old(timers.Pending()) - {orig} + (if timeout >= 0 then {node} else {})
        && (timeout >= 0 ==> node.timeout == DeadlineAfter(now, timeout)))
      ensures r.Failure? ==> Live() == old(Live()) && nodes[..] == old(nodes[..]) && pipe == old(pipe) && d == Nobody
      ensures r.Failure? ==> timers.Pending() == old(timers.Pending())
      ensures old(timers.Guarded()) ==> timers.Guarded()
    {
      hide Poller.Containers, Poller.Clocked, Guards, Route, IndexAgrees, NoDup;
      node, d := null, Nobody;
      r := BadFd(fd);
      if r.Failure? {
        return;
      }
      assert allocated(Live()) && allocated(pipe) && allocated(timers.Pending());
      var n := NewNode(fd, timeout, now);
      var orig := nodes[fd];
      if orig == null {
        r := Failure(ENOENT);
      } else if !epollOk {
        r := Failure(EEPOLL);
      } else {
        DetachFacts(fd, orig);
        d := Replace(fd, orig, n, timeout >= 0);
        node := n;
      }
    }

    /** Out of one container, a new deadline, into another: the index and the flags do not
        notice. */
    method Retime(node: RbNode, timed: bool, deadline: Timespec)
      requires Valid() && node in Live() && node.fd >= 0 && (timed ==> Clock(deadline))
      modifies this`noTimeoList, node`timeout
      modifies timers`treeFirst, timers`treeLast, timers`timeoList, timers`timerfd, timers`wake
      modifies timers.timeoTree`node, timers.timeoTree`tree, timers.timeoTree`repr, node`inRbtree
      modifies (timers.timeoTree.repr + {node})`parent, (timers.timeoTree.repr + {node})`left, (timers.timeoTree.repr + {node})`right, (timers.timeoTree.repr + {node})`color
      ensures Valid() && Live() == old(Live())
      ensures timers.Pending() == old(timers.Pending()) - {node} + (if timed then {node} else {})
      ensures node.timeout == if timed then deadline else old(node.timeout)
      ensures old(timers.Guarded()) ==> timers.Guarded()
    {
      hide Poller.Containers, Poller.Clocked, Guards, Route, NoDup, Poller.Index, Poller.Flags;
      ghost var live := Live();
      assert allocated(live) && allocated(pipe) && allocated(Elems(pipe));
      Unplace(node);
      assert Index(live) && Flags(live, pipe);
      if timed {
        node.timeout := deadline;
      }
      assert Index(live) && Flags(live, pipe);
      Place(node, timed);
      assert Index(live) && Flags(live, pipe) && Live() == live;
    }

    /** poller_set_timeout: the node moves to the place its new deadline asks for. */
    method SetTimeout(fd: int, timeout: int, now: Timespec) returns (r: Ret)
      requires Valid() && Mine(fd) && Clock(now)
      modifies this`noTimeoList, At(fd)`timeout
      modifies timers`treeFirst, timers`treeLast, timers`timeoList, timers`timerfd, timers`wake
      modifies timers.timeoTree`node, timers.timeoTree`tree, timers.timeoTree`repr, Live()`inRbtree
      modifies Live()`parent, Live()`left, Live()`right, Live()`color
      ensures Valid() && Live() == old(Live())
      ensures fd < 0 ==> r == Failure(EBADF)
      ensures fd >= nodes.Length ==> r == Failure(EMFILE)
      ensures 0 <= fd < nodes.Length ==> r == if At(fd) != {} then Success else Failure(ENOENT)
      ensures timers.Pending() == old(timers.Pending()) - At(fd) + (if timeout >= 0 then At(fd) else {})
      ensures timeout >= 0 ==> forall n | n in At(fd) :: n.timeout == DeadlineAfter(now, timeout)
      ensures old(timers.Guarded()) ==> timers.Guarded()
    {
      hide Poller.Containers, Poller.Clocked, Guards, Route, IndexAgrees, NoDup;
      r := BadFd(fd);
      if r.Failure? {
        return;
      }
      var node := nodes[fd];
      if node == null {
        r := Failure(ENOENT);
        return;
      }
      DetachFacts(fd, node);
      Retime(node, timeout >= 0, if timeout >= 0 then DeadlineAfter(now, timeout) else now);
    }

    /** poller_add_timer */
    method AddTimer(value: Timespec, now: Timespec) returns (node: RbNode)
      requires Valid() && Clock(now) && Normal(value) && Nanoseconds(value) >= 0
      modifies this`noTimeoList
      modifies timers`treeFirst, timers`treeLast, timers`timeoList, timers`timerfd, timers`wake
      modifies timers.timeoTree`node, timers.timeoTree`tree, timers.timeoTree`repr, Live()`inRbtree
      modifies timers.timeoTree.repr`parent, timers.timeoTree.repr`left, timers.timeoTree.repr`right, timers.timeoTree.repr`color
      ensures Valid() && fresh(node) && node.fd == -1 && node.timeout == TimerDeadline(now, value)
      ensures Live() == old(Live()) + {node} && timers.Pending() == old(timers.Pending()) + {node}
      ensures old(timers.Guarded()) ==> timers.Guarded()
    {
      hide Poller.Containers, Poller.Clocked, Guards, Route, IndexAgrees, NoDup;
      assert allocated(Live()) && allocated(pipe);
      ghost var live := Live();
      TimerDeadlineExact(now, value);
      node := NewNode(-1, -1, now);
      node.timeout := TimerDeadline(now, value);
      IndexTimer(nodes[..], live, node, me, nthreads);
      ghost var more := live + {node};
      assert Index(more) && Flags(more, pipe);
      Place(node, true);
      assert Index(more) && Flags(more, pipe) && Live() == more;
    }

    /** poller_del_timer: a timer that has not run out leaves its container and goes back to
        the caller. */
    method DelTimer(node: RbNode) returns (found: bool)
      requires Valid() && node.fd < 0 && (!node.removed ==> node in Live())
      modifies this`noTimeoList, node`removed
      modifies timers`treeFirst, timers`treeLast, timers`timeoList
      modifies timers.timeoTree`node, timers.timeoTree`tree, timers.timeoTree`repr, node`inRbtree
      modifies timers.timeoTree.repr`parent, timers.timeoTree.repr`left, timers.timeoTree.repr`right, timers.timeoTree.repr`color
      ensures Valid() && node.removed && found == old(!node.removed)
      ensures Live() == if found then old(Live()) - {node} else old(Live())
      ensures timers.Pending() == if found then old(timers.Pending()) - {node} else old(timers.Pending())
      ensures old(timers.Guarded()) ==> timers.Guarded()
    {
      hide Poller.Containers, Poller.Clocked, Guards, Route, IndexAgrees, NoDup;
      found := !node.removed;
      if found {
        IndexTimer(nodes[..], Live(), node, me, nthreads);
        Unplace(node);
        node.removed := true;
      }
    }

    // ---------- the poller thread ----------

    /** __poller_remove_node with `removed` read inside the critical section: true exactly for
        a node that del or mod has put into the pipe. */
    method RemoveNode(node: RbNode) returns (removed: bool)
      requires Valid() && node.fd >= 0 && (node in Live() || node in pipe)
      modifies this`noTimeoList, nodes
      modifies timers`treeFirst, timers`treeLast, timers`timeoList
      modifies timers.timeoTree`node, timers.timeoTree`tree, timers.timeoTree`repr, node`inRbtree
      modifies timers.timeoTree.repr`parent, timers.timeoTree.repr`left, timers.timeoTree.repr`right, timers.timeoTree.repr`color
      ensures Valid() && (removed <==> node in pipe) && (removed <==> node !in old(Live()))
      ensures removed ==> Live() == old(Live()) && nodes[..] == old(nodes[..]) && timers.Pending() == old(timers.Pending())
      ensures !removed ==> (
        && node.fd < nodes.Length && Live() == old(Live()) - {node} && timers.Pending() == old(timers.Pending()) - {node}
        && nodes[..] == old(nodes[..])[node.fd := null])
      ensures old(timers.Guarded()) ==> timers.Guarded()
    {
      hide Poller.Containers, Poller.Clocked, Guards, Route, NoDup;
      removed := node.removed;
      if !removed {
        ghost var slots := nodes[..];
        assert slots[node.fd] == node;
        Detach(node.fd, node);
        nodes[node.fd] := null;
        assert nodes[..] == slots[node.fd := null];
      }
    }

    /** __poller_handle_pipe: everything written so far comes back, in order. */
    method HandlePipe() returns (done: seq<RbNode>)
      requires Valid()
      modifies this`pipe
      ensures Valid() && pipe == [] && done == old(pipe) && NoDup(done) && Elems(done) !! Live()
    {
      hide Poller.Containers, Poller.Clocked, Route, IndexAgrees;
      done := pipe;
      pipe := [];
    }

    /** Both loops of __poller_handle_timeout empty the slot of each expired descriptor and flag
        each expired timer. */
    method Forget(expired: seq<RbNode>)
      requires forall n | n in Elems(expired) :: n.fd < nodes.Length
      modifies nodes, Elems(expired)`removed
      ensures forall i :: 0 <= i < nodes.Length ==>
        nodes[i] == if i in Fds(expired) then null else old(nodes[i])
      ensures forall n | n in Elems(expired) :: n.removed == (n.fd < 0 || old(n.removed))
    {
      hide Fds;
      FdsOf([], null);
      for k := 0 to |expired|
        invariant forall i :: 0 <= i < nodes.Length ==>
          nodes[i] == if i in Fds(expired[..k]) then null else old(nodes[i])
        invariant forall j :: 0 <= j < k ==> expired[j].removed == (expired[j].fd < 0 || old(expired[j].removed))
        invariant forall n | n in Elems(expired) :: n.removed == old(n.removed) || (n.removed && n.fd < 0)
      {
        var node := expired[k];
        assert node in Elems(expired);
        assert expired[..k + 1] == expired[..k] + [node];
        FdsOf(expired[..k], node);
        if node.fd >= 0 {
          nodes[node.fd] := null;
        } else {
          node.removed := true;
        }
      }
      assert expired[..|expired|] == expired;
    }

    ghost predicate Forgotten(gone: seq<RbNode>, before: seq<RbNode?>)
      reads nodes, Elems(gone)`fd, Elems(gone)`removed
    {
      |before| == nodes.Length
      && (forall i :: 0 <= i < nodes.Length ==> nodes[i] == if i in Fds(gone) then null else before[i])
      && forall n | n in Elems(gone) :: n.removed <==> n.fd < 0
    }

    /** The same with its effect on index and flags. */
    method Clear(ghost live: set<RbNode>, gone: seq<RbNode>)
      requires Index(live) && Flags(live, pipe) && Elems(gone) <= live
      modifies nodes, Elems(gone)`removed
      ensures Index(live - Elems(gone)) && Flags(live - Elems(gone), pipe) && Forgotten(gone, old(nodes[..]))
    {
      hide Route, NoDup, Fds, IndexAgrees;
      ghost var slots := nodes[..];
      LiveFds(slots, live, gone);
      Forget(gone);
      IndexForget(slots, nodes[..], live, gone, me, nthreads);
    }

    /** Both loops of __poller_handle_timeout, as far as the containers go. */
    method ExpireLive(now: Timespec) returns (expired: seq<RbNode>)
      requires Containers() && Clocked()
      modifies timers`treeFirst, timers`treeLast, timers`timeoList
      modifies timers.timeoTree`node, timers.timeoTree`tree, timers.timeoTree`repr
      modifies timers.timeoTree.repr`parent, timers.timeoTree.repr`left
      modifies timers.timeoTree.repr`right, timers.timeoTree.repr`color
      ensures Containers() && Clocked() && NoDup(expired)
      ensures Elems(expired) == set n | n in old(timers.Pending()) && Le(n.timeout, now)
      ensures Elems(expired) <= old(Live()) && Live() == old(Live()) - Elems(expired)
      ensures timers.Pending() == old(timers.Pending()) - Elems(expired)
      ensures old(timers.Guarded()) ==> timers.Guarded()
    {
      hide TimerQueue.Valid, RbRoot.Valid, Guards, NoDup;
      ghost var live := Live();
      expired := timers.Expire(now);
      assert Live() == live - Elems(expired);
    }

    /** __poller_handle_timeout: exactly the nodes that are due leave, list before tree; their
        slots are empty, and timers among them are flagged. */
    method HandleTimeout(now: Timespec) returns (expired: seq<RbNode>)
      requires Valid()
      modifies nodes, Live()`removed
      modifies timers`treeFirst, timers`treeLast, timers`timeoList
      modifies timers.timeoTree`node, timers.timeoTree`tree, timers.timeoTree`repr
      modifies timers.timeoTree.repr`parent, timers.timeoTree.repr`left
      modifies timers.timeoTree.repr`right, timers.timeoTree.repr`color
      ensures Valid() && NoDup(expired) && noTimeoList == old(noTimeoList) && pipe == old(pipe)
      ensures Elems(expired) == set n | n in old(timers.Pending()) && Le(n.timeout, now)
      ensures Elems(expired) <= old(Live()) && Live() == old(Live()) - Elems(expired)
      ensures timers.Pending() == old(timers.Pending()) - Elems(expired)
      ensures Forgotten(expired, old(nodes[..]))
      ensures old(timers.Guarded()) ==> timers.Guarded()
    {
      hide Poller.Containers, Poller.Clocked, Poller.Index, Poller.Flags, Poller.Forgotten, Guards, NoDup;
      ghost var live := Live();
      assert allocated(live) && allocated(pipe) && allocated(Elems(pipe));
      expired := ExpireLive(now);
      assert Index(live) && Flags(live, pipe);
      Clear(live, expired);
    }

    lemma MineEmpty()
      requires Index({})
      ensures forall i :: 0 <= i < nodes.Length && Route(i, nthreads) == me ==> nodes[i] == null
    {
      hide Route;
      assert forall i :: 0 <= i < nodes.Length ==> nodes[..][i] == nodes[i];
    }

    lemma LiveFds(slots: seq<RbNode?>, live: set<RbNode>, gone: seq<RbNode>)
      requires me < nthreads && IndexAgrees(slots, live, me, nthreads) && Elems(gone) <= live && |slots| == nodes.Length
      ensures forall n | n in Elems(gone) :: n.fd < nodes.Length
    {
    }

    /** Everything out of the tree and the two lists. */
    method TakeLive() returns (taken: seq<RbNode>)
      requires Containers() && Clocked()
      modifies this`noTimeoList
      modifies timers`treeFirst, timers`treeLast, timers`timeoList
      modifies timers.timeoTree`node, timers.timeoTree`tree, timers.timeoTree`repr
      modifies timers.timeoTree.repr`parent, timers.timeoTree.repr`left
      modifies timers.timeoTree.repr`right, timers.timeoTree.repr`color
      ensures Containers() && Clocked() && Live() == {} && NoDup(taken) && Elems(taken) == old(Live())
    {
      hide TimerQueue.Valid, RbRoot.Valid, NoDup;
      taken := timers.TakeAll();
      NoDupSum(taken, noTimeoList);
      taken := taken + noTimeoList;
      noTimeoList := [];
      NoDupEnds(noTimeoList);
    }

    /** poller_start and, after the join, poller_stop set and clear this flag alone. */
    method SetStopped(flag: bool)
      requires Valid()
      modifies this`stopped
      ensures Valid() && stopped == flag
    {
      stopped := flag;
    }

    /** __poller_set_timer, after which the thread goes to epoll_wait. */
    method SetTimer()
      requires Valid() && !waiting
      modifies this`waiting, timers`timerfd, timers`wake
      ensures Valid() && waiting && timers.Guarded() && (timers.timerfd.None? <==> timers.Pending() == {})
    {
      hide Poller.Containers, Poller.Index, Poller.Flags, Poller.Clocked, Guards, TimerQueue.Valid, RbRoot.Valid, NoDup, Clock;
      CanSetTimer();
      assert allocated(Live()) && allocated(pipe) && allocated(Elems(pipe)) && allocated(timers.Pending());
      timers.SetTimer();
      waiting := true;
      Rearmed();
    }

    lemma CanSetTimer()
      requires Valid()
      ensures timers.Valid() && forall n | n in timers.Pending() :: n.timeout != Timespec(0, 0) && Clock(n.timeout)
    {
      hide Poller.Index, Poller.Flags, TimerQueue.Valid, NoDup, Guards;
    }

    lemma Rearmed()
      requires timers.Guarded() && forall n | n in timers.Pending() :: Clock(n.timeout)
      requires timers.timerfd.Some? ==> exists n :: n in timers.Pending() && n.timeout == timers.timerfd.value
      ensures Clocked()
    {
      hide Guards;
    }

    /** The kernel: the timerfd runs out. */
    method TimerFires(now: Timespec)
      requires Valid() && timers.timerfd.Some? && Le(timers.timerfd.value, now)
      modifies timers`timerfd, timers`wake
      ensures Valid() && timers.wake
    {
      hide Poller.Containers, Poller.Index, NoDup, Guards;
      timers.Fire(now);
    }

    /** epoll_wait returns, with or without the event of the timerfd. */
    method Wake(timerEvent: bool)
      requires Valid() && waiting && (timerEvent ==> timers.wake)
      modifies this`waiting, timers`wake
      ensures Valid() && !waiting
    {
      hide Poller.Containers, Poller.Index, NoDup, Guards;
      waiting := false;
      if timerEvent {
        timers.wake := false;
      }
    }

    /** For pending nodes, due by the field-wise comparison is due in time. */
    lemma DueInTime(n: RbNode, now: Timespec)
      requires Valid() && n in timers.Pending() && Normal(now)
      ensures Le(n.timeout, now) <==> Nanoseconds(n.timeout) <= Nanoseconds(now)
    {
      CmpIsInstantOrder(n.timeout, now);
    }

    /** No lost timeout: while the poller thread waits and a deadline is pending, the timerfd is
        armed no later than that deadline, or it has run out and the thread is being woken. */
    lemma NoLostTimeout(n: RbNode)
      requires Valid() && waiting && n in timers.Pending()
      ensures timers.wake
        || (timers.timerfd.Some? && Nanoseconds(timers.timerfd.value) <= Nanoseconds(n.timeout))
    {
      if !timers.wake {
        CmpIsInstantOrder(timers.timerfd.value, n.timeout);
      }
    }

    /** poller_stop after the join: the pipe and all containers are emptied.  What comes back
        is what is called back: first `piped`, then `rest`. */
    method Stop() returns (piped: seq<RbNode>, rest: seq<RbNode>)
      requires Valid()
      modifies this`noTimeoList, this`pipe, this`stopped, nodes, Live()`removed
      modifies timers`treeFirst, timers`treeLast, timers`timeoList
      modifies timers.timeoTree`node, timers.timeoTree`tree, timers.timeoTree`repr
      modifies timers.timeoTree.repr`parent, timers.timeoTree.repr`left
      modifies timers.timeoTree.repr`right, timers.timeoTree.repr`color
      ensures Valid() && stopped && Live() == {} && timers.Pending() == {} && pipe == []
      ensures piped == old(pipe) && NoDup(rest) && Elems(rest) == old(Live()) && NoDup(piped + rest)
      ensures Forgotten(rest, old(nodes[..]))
      ensures forall i :: 0 <= i < nodes.Length && Route(i, nthreads) == me ==> nodes[i] == null
    {
      hide Poller.Containers, Poller.Clocked, Poller.Index, Poller.Forgotten, NoDup;
      ghost var live := Live();
      stopped := true;
      piped := HandlePipe();
      NoDupSum(piped, []);
      rest := TakeLive();
      assert Index(live) && Flags(live, pipe);
      NoDupSum(piped, rest);
      assert live - Elems(rest) == {};
      Clear(live, rest);
      MineEmpty();
    }
  }

  lemma IndexForget(slots: seq<RbNode?>, after: seq<RbNode?>, live: set<RbNode>, gone: seq<RbNode>, me: nat, nthreads: nat)
    requires nthreads > 0 && IndexAgrees(slots, live, me, nthreads) && Elems(gone) <= live && |after| == |slots|
    requires forall i :: 0 <= i < |slots| ==> after[i] == if i in Fds(gone) then null else slots[i]
    ensures IndexAgrees(after, live - Elems(gone), me, nthreads)
  {
    hide Route;
    forall n | n in live - Elems(gone) && n.fd >= 0 ensures n.fd !in Fds(gone) {
      forall m | m in Elems(gone) ensures m.fd != n.fd {}
    }
  }

  lemma FdsOf(s: seq<RbNode>, n: RbNode?)
    ensures n != null ==> Fds(s + [n]) == Fds(s) + {n.fd}
    ensures Fds([]) == {}
  {
    if n != null {
      assert forall m :: m in s ==> m in s + [n];
      assert n in Elems(s + [n]);
    }
  }

  ghost function Fds(s: seq<RbNode>): set<int>
    reads Elems(s)`fd
  {
    set n | n in Elems(s) :: n.fd
  }
}
