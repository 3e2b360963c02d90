/** The critical sections of class Poller are steps of PollerProtocol: what is proved there about
    every interleaving holds of the nodes, slots and lists of the class. */
module PollerSteps {
  import opened Common
  import R = RedBlack
  import P = Poller
  import TQ = TimerQueue
  import opened PollerProtocol

  /** A name for each node ever accepted. */
  type Names = map<R.RbNode, nat>

  ghost predicate Distinct(names: Names) {
    forall a, b :: a in names && b in names && names[a] == names[b] ==> a == b
  }

  function Name(names: Names, n: R.RbNode?): Node
    reads names.Keys`fd
  {
    if n != null && n in names then Node(names[n], n.fd) else Node(0, 0)
  }

  ghost function Named(names: Names, nodes: set<R.RbNode>): set<Node>
    reads names.Keys`fd
  {
    set n | n in nodes :: Name(names, n)
  }

  function NamedSeq(names: Names, nodes: seq<R.RbNode>): seq<Node>
    reads names.Keys`fd
  {
    if nodes == [] then [] else NamedSeq(names, nodes[..|nodes| - 1]) + [Name(names, nodes[|nodes| - 1])]
  }

  /** The slots that belong to one poller, as a map. */
  ghost function Slots(names: Names, slots: seq<R.RbNode?>, me: nat, nthreads: nat): map<int, Node>
    requires nthreads > 0
    reads names.Keys`fd
  {
    map i | 0 <= i < |slots| && P.Route(i, nthreads) == me && slots[i] != null :: Name(names, slots[i])
  }

  ghost function Flagged(names: Names): set<R.RbNode>
    reads names.Keys`removed
  {
    set n | n in names.Keys && n.removed
  }

  /** The state `s` of the protocol is what the poller `p` holds. */
  ghost predicate Shows(p: P.Poller, names: Names, s: State)
    reads p, p.timers, p.timers.timeoTree, p.nodes, names.Keys`fd, names.Keys`removed
  {
    && Distinct(names) && p.nthreads > 0
    && p.Live() <= names.Keys && Elems(p.pipe) <= names.Keys
    && s.accepted == Named(names, names.Keys)
    && s.live == Named(names, p.Live())
    && Piped(s.pipe) == NamedSeq(names, p.pipe)
    && s.index == Slots(names, p.nodes[..], p.me, p.nthreads)
    && s.stopped == p.stopped && s.thread.Waiting? == p.waiting
    && s.removed == Named(names, Flagged(names))
  }

  // ---------- names ----------

  lemma NamedMore(names: Names, nodes: set<R.RbNode>, n: R.RbNode)
    ensures Named(names, nodes + {n}) == Named(names, nodes) + {Name(names, n)}
  {
  }

  lemma NamedOnce(names: Names, nodes: set<R.RbNode>, n: R.RbNode)
    requires Distinct(names) && nodes <= names.Keys && n in names
    ensures Name(names, n) in Named(names, nodes) <==> n in nodes
  {
  }

  lemma NamedLess(names: Names, nodes: set<R.RbNode>, gone: set<R.RbNode>)
    requires Distinct(names) && nodes <= names.Keys && gone <= names.Keys
    ensures Named(names, nodes - gone) == Named(names, nodes) - Named(names, gone)
  {
    forall n | n in nodes - gone ensures Name(names, n) !in Named(names, gone) { NamedOnce(names, gone, n); }
  }

  lemma NamedPush(names: Names, q: seq<R.RbNode>, n: R.RbNode)
    ensures NamedSeq(names, q + [n]) == NamedSeq(names, q) + [Name(names, n)]
  {
    assert (q + [n])[..|q|] == q;
  }

  lemma ElemsPush(q: seq<Node>, x: Node)
    ensures Elems(q + [x]) == Elems(q) + {x}
  {
    assert x in q + [x];
    assert forall y :: y in q ==> y in q + [x];
  }

  lemma LastElem(q: seq<R.RbNode>)
    requires q != []
    ensures Elems(q) == Elems(q[..|q| - 1]) + {q[|q| - 1]}
  {
    assert forall y :: y in q ==> y in q[..|q| - 1] || y == q[|q| - 1];
  }

  lemma NamedNone(names: Names)
    ensures Named(names, {}) == {} && NamedSeq(names, []) == [] && Elems<R.RbNode>([]) == {} && Elems<Node>([]) == {}
  {
  }

  lemma {:induction false} NamedElems(names: Names, q: seq<R.RbNode>)
    ensures Elems(NamedSeq(names, q)) == Named(names, Elems(q))
  {
    hide Named, Name, Elems, Elems;
    NamedNone(names);
    if q != [] {
      var k := |q| - 1;
      NamedElems(names, q[..k]);
      LastElem(q);
      NamedMore(names, Elems(q[..k]), q[k]);
      ElemsPush(NamedSeq(names, q[..k]), Name(names, q[k]));
    }
  }

  // ---------- a new node gets a name ----------

  lemma NamedStill(names: Names, more: Names, nodes: set<R.RbNode>)
    requires nodes <= names.Keys <= more.Keys && forall n :: n in names ==> more[n] == names[n]
    ensures Named(more, nodes) == Named(names, nodes)
  {
    assert forall n :: n in nodes ==> Name(more, n) == Name(names, n);
  }

  lemma {:induction false} NamedSeqStill(names: Names, more: Names, q: seq<R.RbNode>)
    requires Elems(q) <= names.Keys <= more.Keys && forall n :: n in names ==> more[n] == names[n]
    ensures NamedSeq(more, q) == NamedSeq(names, q)
  {
    if q != [] {
      var k := |q| - 1;
      assert forall n :: n in Elems(q[..k]) ==> n in Elems(q);
      assert q[k] in Elems(q);
      NamedSeqStill(names, more, q[..k]);
    }
  }

  lemma SlotsStill(names: Names, more: Names, slots: seq<R.RbNode?>, me: nat, nthreads: nat)
    requires nthreads > 0 && names.Keys <= more.Keys && forall n :: n in names ==> more[n] == names[n]
    requires forall i :: 0 <= i < |slots| && P.Route(i, nthreads) == me && slots[i] != null ==> slots[i] in names
    ensures Slots(more, slots, me, nthreads) == Slots(names, slots, me, nthreads)
  {
    hide P.Route;
  }

  // ---------- slots ----------

  lemma SlotFilled(names: Names, slots: seq<R.RbNode?>, fd: nat, n: R.RbNode, me: nat, nthreads: nat)
    requires nthreads > 0 && fd < |slots| && P.Route(fd, nthreads) == me
    ensures Slots(names, slots[fd := n], me, nthreads) == Slots(names, slots, me, nthreads)[fd := Name(names, n)]
  {
    hide P.Route;
  }

  lemma SlotEmptied(names: Names, slots: seq<R.RbNode?>, fd: nat, me: nat, nthreads: nat)
    requires nthreads > 0 && fd < |slots|
    ensures Slots(names, slots[fd := null], me, nthreads) == Slots(names, slots, me, nthreads) - {fd}
  {
    hide P.Route;
  }

  lemma SlotIs(names: Names, slots: seq<R.RbNode?>, fd: int, me: nat, nthreads: nat)
    requires nthreads > 0 && (0 <= fd < |slots| ==> P.Route(fd, nthreads) == me)
    ensures var m := Slots(names, slots, me, nthreads);
      (fd in m <==> 0 <= fd < |slots| && slots[fd] != null) && (fd in m ==> m[fd] == Name(names, slots[fd]))
  {
    hide P.Route;
  }

  // ---------- a new poller ----------

  method Create(buf: array<R.RbNode?>, me: nat, nthreads: nat) returns (p: P.Poller)
    requires me < nthreads && forall i :: 0 <= i < buf.Length ==> buf[i] == null
    ensures fresh(p) && fresh(p.timers) && fresh(p.timers.timeoTree)
    ensures p.nodes == buf && p.me == me && p.nthreads == nthreads && p.Valid() && Shows(p, map[], INIT)
  {
    p := new P.Poller(buf, me, nthreads);
    NoSlots(p.nodes[..], me, nthreads);
    PipedEmpty();
  }

  lemma NoSlots(slots: seq<R.RbNode?>, me: nat, nthreads: nat)
    requires nthreads > 0 && forall i :: 0 <= i < |slots| ==> slots[i] == null
    ensures Slots(map[], slots, me, nthreads) == map[]
  {
  }

  lemma SlotLive(p: P.Poller, fd: int)
    requires p.Valid() && p.Mine(fd)
    ensures 0 <= fd < p.nodes.Length && p.nodes[fd] != null ==> p.nodes[fd] in p.Live() && p.nodes[fd].fd == fd && !p.nodes[fd].removed
  {
    if 0 <= fd < p.nodes.Length && p.nodes[fd] != null { p.DetachFacts(fd, p.nodes[fd]); }
  }

  lemma NameFd(names: Names, n: R.RbNode)
    requires n in names
    ensures Name(names, n).fd == n.fd
  {
  }

  // ---------- poller_del ----------

  /** What Del leaves, as the protocol's Displace after Unlink. */
  lemma DelShows(names: Names, s: State, live: set<R.RbNode>, pipe: seq<R.RbNode>, n: R.RbNode)
    requires Distinct(names) && n in names && n in live && live <= names.Keys
    requires s.live == Named(names, live) && Piped(s.pipe) == NamedSeq(names, pipe)
    ensures Named(names, live - {n}) == s.live - {Name(names, n)}
    ensures Piped(s.pipe + [Some(Name(names, n))]) == NamedSeq(names, pipe + [n])
  {
    NamedLess(names, live, {n});
    assert Named(names, {n}) == {Name(names, n)};
    PipedPush(s.pipe, Some(Name(names, n)));
    NamedPush(names, pipe, n);
  }

  lemma DelParts(s: State, fd: int)
    ensures Enabled(s, Del(fd))
    ensures fd !in s.index ==> Apply(s, Del(fd), true) == s
    ensures fd in s.index ==> Apply(s, Del(fd), true) == Displace(Unlink(s, s.index[fd]), s.index[fd])
  {
  }

  method DelStep(p: P.Poller, fd: int, ghost names: Names, ghost s: State) returns (ghost t: State)
    requires p.Valid() && p.Mine(fd) && Shows(p, names, s)
    modifies p`noTimeoList, p.nodes, p`pipe, p.At(fd)`removed
    modifies p.timers`treeFirst, p.timers`treeLast, p.timers`timeoList
    modifies p.timers.timeoTree`node, p.timers.timeoTree`tree, p.timers.timeoTree`repr, p.Live()`inRbtree
    modifies p.timers.timeoTree.repr`parent, p.timers.timeoTree.repr`left, p.timers.timeoTree.repr`right, p.timers.timeoTree.repr`color
    ensures p.Valid() && Enabled(s, Del(fd)) && t == Apply(s, Del(fd), true) && Shows(p, names, t)
    ensures p.timers.Pending() <= old(p.timers.Pending())
  {
    hide P.Poller.Valid, P.DeadlineAfter, TQ.TimerQueue.Guarded, TQ.TimerQueue.Pending, P.IndexAgrees, P.Route, P.Poller.Live;
    hide Named, NamedSeq, Slots, Name, Piped, Shows, Apply, Enabled;
    ShowsParts(p, names, s);
    DelParts(s, fd);
    t := Apply(s, Del(fd), true);
    ghost var live, slots, pipe, flagged := p.Live(), p.nodes[..], p.pipe, Flagged(names);
    SlotIs(names, slots, fd, p.me, p.nthreads);
    SlotLive(p, fd);
    var r, d := p.Del(fd);
    if r.Success? {
      ghost var n := slots[fd];
      NameFd(names, n);
      DelShows(names, s, live, pipe, n);
      SlotEmptied(names, slots, fd, p.me, p.nthreads);
      assert Flagged(names) == if s.stopped then flagged else flagged + {n};
      NamedMore(names, flagged, n);
    } else {
      assert Flagged(names) == flagged;
    }
    ShowsFrom(p, names, t);
  }

  // ---------- poller_add, poller_mod, poller_add_timer ----------

  /** What has a name keeps it when a new node gets one of its own. */
  lemma StillNamed(names: Names, n: R.RbNode, k: nat, live: set<R.RbNode>, pipe: seq<R.RbNode>, slots: seq<R.RbNode?>,
                   me: nat, nthreads: nat, flagged: set<R.RbNode>)
    requires Distinct(names) && n !in names && k !in names.Values && nthreads > 0
    requires live <= names.Keys && Elems(pipe) <= names.Keys && flagged <= names.Keys
    requires forall i :: 0 <= i < |slots| && P.Route(i, nthreads) == me && slots[i] != null ==> slots[i] in names
    ensures var more := names[n := k];
      && Distinct(more) && Name(more, n) == Node(k, n.fd) && Node(k, n.fd) !in Named(names, names.Keys)
      && more.Keys == names.Keys + {n}
      && Named(more, more.Keys) == Named(names, names.Keys) + {Node(k, n.fd)}
      && Named(more, live) == Named(names, live) && Named(more, flagged) == Named(names, flagged)
      && NamedSeq(more, pipe) == NamedSeq(names, pipe)
      && Slots(more, slots, me, nthreads) == Slots(names, slots, me, nthreads)
  {
    hide P.Route;
    var more := names[n := k];
    forall a | a in names ensures names[a] != k { assert names[a] in names.Values; }
    NamedStill(names, more, names.Keys);
    assert more.Keys == names.Keys + {n};
    NamedMore(more, names.Keys, n);
    NamedStill(names, more, live);
    NamedStill(names, more, flagged);
    NamedSeqStill(names, more, pipe);
    SlotsStill(names, more, slots, me, nthreads);
  }

  lemma MineNamed(p: P.Poller, names: Names)
    requires p.Valid() && p.Live() <= names.Keys
    ensures forall i :: 0 <= i < p.nodes.Length && P.Route(i, p.nthreads) == p.me && p.nodes[..][i] != null ==> p.nodes[..][i] in names
  {
    hide P.Route;
  }

  lemma AddParts(s: State, x: Node)
    requires x !in s.accepted && x.fd >= 0 && x.fd !in s.index
    ensures Enabled(s, Add(x)) && Apply(s, Add(x), true) == Register(s, x)
  {
  }

  method AddStep(p: P.Poller, fd: int, timeout: int, now: R.Timespec, epollOk: bool, ghost names: Names, ghost k: nat, ghost s: State)
    returns (r: P.Ret, node: R.RbNode?, ghost more: Names, ghost t: State)
    requires p.Valid() && p.Mine(fd) && p.Clock(now) && Shows(p, names, s) && k !in names.Values
    modifies p`noTimeoList, p.nodes
    modifies p.timers`treeFirst, p.timers`treeLast, p.timers`timeoList, p.timers`timerfd, p.timers`wake
    modifies p.timers.timeoTree`node, p.timers.timeoTree`tree, p.timers.timeoTree`repr, p.Live()`inRbtree
    modifies p.timers.timeoTree.repr`parent, p.timers.timeoTree.repr`left, p.timers.timeoTree.repr`right, p.timers.timeoTree.repr`color
    ensures p.Valid() && Shows(p, more, t)
    ensures r.Success? ==> fd >= 0 && Enabled(s, Add(Node(k, fd))) && fd !in s.index && t == Apply(s, Add(Node(k, fd)), true)
    ensures r.Success? ==> node != null && fresh(node) && more == names[node := k] && node in p.Live()
    ensures r.Failure? ==> t == s && more == names
    ensures p.timers.Pending() <= old(p.timers.Pending()) + if r.Success? then {node} else {}
  {
    hide P.Poller.Valid, P.DeadlineAfter, TQ.TimerQueue.Guarded, TQ.TimerQueue.Pending, P.IndexAgrees, P.Route, P.Poller.Live;
    hide Named, NamedSeq, Slots, Name, Piped, Flagged, Distinct, Shows, Apply, Enabled;
    more, t := names, s;
    ShowsParts(p, names, s);
    ghost var live, slots, pipe, flagged := p.Live(), p.nodes[..], p.pipe, Flagged(names);
    SlotIs(names, slots, fd, p.me, p.nthreads);
    MineNamed(p, names);
    FlaggedIn(names);
    assert allocated(names);
    r, node := p.Add(fd, timeout, now, epollOk);
    if r.Success? {
      more := names[node := k];
      AddedFacts(p, fd, node);
      StillNamed(names, node, k, live, pipe, slots, p.me, p.nthreads, flagged);
      NamedMore(more, live, node);
      SlotFilled(more, slots, fd, node, p.me, p.nthreads);
      FlaggedStill(names, node, k, flagged);
      AddParts(s, Node(k, fd));
      t := Apply(s, Add(Node(k, fd)), true);
    }
    ShowsFrom(p, more, t);
  }

  lemma SameName(names: Names, more: Names, n: R.RbNode)
    requires n in names && n in more && more[n] == names[n]
    ensures Name(more, n) == Name(names, n)
  {
  }

  lemma FlaggedIn(names: Names)
    ensures Flagged(names) <= names.Keys
  {
  }

  lemma FlaggedStill(names: Names, n: R.RbNode, k: nat, flagged: set<R.RbNode>)
    requires n !in names && !n.removed && flagged == Flagged(names)
    ensures Flagged(names[n := k]) == flagged
  {
  }

  lemma AddedFacts(p: P.Poller, fd: int, n: R.RbNode)
    requires p.Valid() && p.Mine(fd) && 0 <= fd < p.nodes.Length && p.nodes[fd] == n
    ensures n in p.Live() && n.fd == fd && !n.removed
  {
    SlotLive(p, fd);
  }

  /** The names of everything that Mod changes. */
  lemma ModNames(names: Names, node: R.RbNode, k: nat, s: State, live: set<R.RbNode>, slots: seq<R.RbNode?>,
                 pipe: seq<R.RbNode>, flagged: set<R.RbNode>, n: R.RbNode, me: nat, nthreads: nat)
    requires Distinct(names) && node !in names && k !in names.Values && nthreads > 0
    requires live <= names.Keys && Elems(pipe) <= names.Keys && flagged <= names.Keys
    requires forall i :: 0 <= i < |slots| && P.Route(i, nthreads) == me && slots[i] != null ==> slots[i] in names
    requires n in live && 0 <= node.fd < |slots| && P.Route(node.fd, nthreads) == me && n.fd == node.fd
    requires s.live == Named(names, live) && Piped(s.pipe) == NamedSeq(names, pipe)
    ensures var more := names[node := k];
      var x, y := Name(names, n), Node(k, node.fd);
      && Distinct(more) && y !in Named(names, names.Keys) && x.fd == n.fd
      && Named(more, more.Keys) == Named(names, names.Keys) + {y}
      && Named(more, live - {n} + {node}) == s.live - {x} + {y}
      && Piped(s.pipe + [Some(x)]) == NamedSeq(more, pipe + [n]) && Piped(s.pipe) == NamedSeq(more, pipe)
      && Slots(more, slots[node.fd := node], me, nthreads) == Slots(names, slots, me, nthreads)[node.fd := y]
      && Named(more, flagged) == Named(names, flagged) && Named(more, flagged + {n}) == Named(names, flagged) + {x}
  {
    hide Named, NamedSeq, Slots, Name, Piped, Distinct, P.Route;
    var more := names[node := k];
    StillNamed(names, node, k, live, pipe, slots, me, nthreads, flagged);
    DelShows(more, s, live, pipe, n);
    NamedMore(more, live - {n}, node);
    SlotFilled(more, slots, node.fd, node, me, nthreads);
    NamedMore(more, flagged, n);
    NameFd(names, n);
    SameName(names, more, n);
  }

  lemma FlaggedAfter(names: Names, node: R.RbNode, k: nat, flagged: set<R.RbNode>, n: R.RbNode)
    requires node !in names && !node.removed && n in names && n !in flagged && flagged <= names.Keys
    requires forall m | m in names.Keys - {n} :: m.removed <==> m in flagged
    ensures Flagged(names[node := k]) == if n.removed then flagged + {n} else flagged
  {
  }

  lemma FlaggedSame(names: Names, flagged: set<R.RbNode>)
    requires flagged <= names.Keys && forall m | m in names.Keys :: m.removed <==> m in flagged
    ensures Flagged(names) == flagged
  {
  }

  lemma FlaggedIs(names: Names)
    ensures forall m | m in names.Keys :: m.removed <==> m in Flagged(names)
  {
  }

  lemma ShowsParts(p: P.Poller, names: Names, s: State)
    requires Shows(p, names, s)
    ensures Distinct(names) && p.nthreads > 0 && p.Live() <= names.Keys && Elems(p.pipe) <= names.Keys
    ensures s.accepted == Named(names, names.Keys) && s.live == Named(names, p.Live())
    ensures Piped(s.pipe) == NamedSeq(names, p.pipe) && s.index == Slots(names, p.nodes[..], p.me, p.nthreads)
    ensures s.stopped == p.stopped && s.thread.Waiting? == p.waiting && s.removed == Named(names, Flagged(names))
  {
  }

  lemma ShowsFrom(p: P.Poller, names: Names, s: State)
    requires Distinct(names) && p.nthreads > 0 && p.Live() <= names.Keys && Elems(p.pipe) <= names.Keys
    requires s.accepted == Named(names, names.Keys) && s.live == Named(names, p.Live())
    requires Piped(s.pipe) == NamedSeq(names, p.pipe) && s.index == Slots(names, p.nodes[..], p.me, p.nthreads)
    requires s.stopped == p.stopped && s.thread.Waiting? == p.waiting && s.removed == Named(names, Flagged(names))
    ensures Shows(p, names, s)
  {
  }

  /** The state after mod, put together. */
  lemma ModShows(p: P.Poller, names: Names, more: Names, s: State, slots: seq<R.RbNode?>, pipe: seq<R.RbNode>,
                 flagged: set<R.RbNode>, n: R.RbNode, node: R.RbNode, k: nat, fd: nat)
    requires Distinct(more) && p.nthreads > 0 && n in names && more == names[node := k] && node !in names && node.fd == fd
    requires p.Live() <= more.Keys && Elems(pipe) <= names.Keys && Name(names, n).fd == fd
    requires fd in s.index && s.index[fd] == Name(names, n) && Node(k, fd) !in s.accepted
    requires Named(more, more.Keys) == s.accepted + {Node(k, fd)} && s.stopped == p.stopped && s.thread.Waiting? == p.waiting
    requires Named(more, p.Live()) == s.live - {Name(names, n)} + {Node(k, fd)}
    requires p.pipe == if s.stopped then pipe else pipe + [n]
    requires Piped(s.pipe + [Some(Name(names, n))]) == NamedSeq(more, pipe + [n]) && Piped(s.pipe) == NamedSeq(more, pipe)
    requires Slots(more, p.nodes[..], p.me, p.nthreads) == s.index[fd := Node(k, fd)]
    requires Flagged(more) == if s.stopped then flagged else flagged + {n}
    requires Named(more, flagged) == s.removed && Named(more, flagged + {n}) == s.removed + {Name(names, n)}
    ensures Enabled(s, Mod(Node(k, fd))) && Shows(p, more, Apply(s, Mod(Node(k, fd)), true))
  {
    hide Named, NamedSeq, Slots, Name, Piped, Distinct, Flagged, P.Poller.Live, P.Route;
  }

  method ModStep(p: P.Poller, fd: int, timeout: int, now: R.Timespec, epollOk: bool, ghost names: Names, ghost k: nat, ghost s: State)
    returns (r: P.Ret, node: R.RbNode?, ghost more: Names, ghost t: State)
    requires p.Valid() && p.Mine(fd) && p.Clock(now) && Shows(p, names, s) && k !in names.Values
    modifies p`noTimeoList, p.nodes, p`pipe, p.At(fd)`removed
    modifies p.timers`treeFirst, p.timers`treeLast, p.timers`timeoList, p.timers`timerfd, p.timers`wake
    modifies p.timers.timeoTree`node, p.timers.timeoTree`tree, p.timers.timeoTree`repr, p.Live()`inRbtree
    modifies p.timers.timeoTree.repr`parent, p.timers.timeoTree.repr`left, p.timers.timeoTree.repr`right, p.timers.timeoTree.repr`color
    ensures p.Valid() && Shows(p, more, t)
    ensures r.Success? ==> fd >= 0 && Enabled(s, Mod(Node(k, fd))) && fd in s.index && t == Apply(s, Mod(Node(k, fd)), true)
    ensures r.Success? ==> node != null && fresh(node) && more == names[node := k] && node in p.Live()
    ensures r.Failure? ==> t == s && more == names
    ensures p.timers.Pending() <= old(p.timers.Pending()) + if r.Success? then {node} else {}
  {
    hide P.Poller.Valid, P.DeadlineAfter, TQ.TimerQueue.Guarded, TQ.TimerQueue.Pending, P.IndexAgrees, P.Route, P.Poller.Live;
    hide Named, NamedSeq, Slots, Name, Piped, Flagged, Distinct, Shows, Apply, Enabled;
    more, t := names, s;
    ShowsParts(p, names, s);
    ghost var live, slots, pipe, flagged := p.Live(), p.nodes[..], p.pipe, Flagged(names);
    SlotIs(names, slots, fd, p.me, p.nthreads);
    SlotLive(p, fd);
    MineNamed(p, names);
    FlaggedIn(names);
    FlaggedIs(names);
    assert allocated(names);
    var d;
    r, node, d := p.Mod(fd, timeout, now, epollOk);
    if r.Success? {
      ghost var n := slots[fd];
      more := names[node := k];
      AddedFacts(p, fd, node);
      ModNames(names, node, k, s, live, slots, pipe, flagged, n, p.me, p.nthreads);
      FlaggedAfter(names, node, k, flagged, n);
      ModShows(p, names, more, s, slots, pipe, flagged, n, node, k, fd);
      t := Apply(s, Mod(Node(k, fd)), true);
    } else {
      SlotLive(p, fd);
      FlaggedSame(names, flagged);
      ShowsFrom(p, names, s);
    }
  }

  method SetTimeoutStep(p: P.Poller, fd: int, timeout: int, now: R.Timespec, ghost names: Names, ghost s: State)
    returns (r: P.Ret)
    requires p.Valid() && p.Mine(fd) && p.Clock(now) && Shows(p, names, s)
    modifies p`noTimeoList, p.At(fd)`timeout
    modifies p.timers`treeFirst, p.timers`treeLast, p.timers`timeoList, p.timers`timerfd, p.timers`wake
    modifies p.timers.timeoTree`node, p.timers.timeoTree`tree, p.timers.timeoTree`repr, p.Live()`inRbtree
    modifies p.Live()`parent, p.Live()`left, p.Live()`right, p.Live()`color
    ensures p.Valid() && Shows(p, names, s)
    ensures r.Success? <==> fd in s.index
    ensures p.timers.Pending() <= old(p.timers.Pending()) + p.At(fd)
  {
    hide P.Poller.Valid, P.IndexAgrees, P.Route, Named, NamedSeq, Slots, Name, P.Poller.Live, Piped, Flagged, Distinct, Shows;
    ShowsParts(p, names, s);
    SlotIs(names, p.nodes[..], fd, p.me, p.nthreads);
    r := p.SetTimeout(fd, timeout, now);
    ShowsFrom(p, names, s);
  }

  lemma AddTimerParts(s: State, x: Node)
    requires x !in s.accepted && x.fd < 0
    ensures Enabled(s, AddTimer(x))
    ensures var t := Apply(s, AddTimer(x), true);
      t == s.(accepted := s.accepted + {x}, live := s.live + {x})
  {
  }

  method AddTimerStep(p: P.Poller, value: R.Timespec, now: R.Timespec, ghost names: Names, ghost k: nat, ghost s: State)
    returns (node: R.RbNode, ghost more: Names, ghost t: State)
    requires p.Valid() && p.Clock(now) && TQ.Normal(value) && TQ.Nanoseconds(value) >= 0
    requires Shows(p, names, s) && k !in names.Values
    modifies p`noTimeoList
    modifies p.timers`treeFirst, p.timers`treeLast, p.timers`timeoList, p.timers`timerfd, p.timers`wake
    modifies p.timers.timeoTree`node, p.timers.timeoTree`tree, p.timers.timeoTree`repr, p.Live()`inRbtree
    modifies p.timers.timeoTree.repr`parent, p.timers.timeoTree.repr`left, p.timers.timeoTree.repr`right, p.timers.timeoTree.repr`color
    ensures p.Valid() && Shows(p, more, t) && node.fd < 0 && fresh(node) && more == names[node := k] && node in p.Live()
    ensures Enabled(s, AddTimer(Node(k, node.fd))) && t == Apply(s, AddTimer(Node(k, node.fd)), true)
    ensures p.timers.Pending() <= old(p.timers.Pending()) + {node}
  {
    hide P.Poller.Valid, P.DeadlineAfter, TQ.TimerQueue.Guarded, TQ.TimerQueue.Pending, P.IndexAgrees, P.Route, P.Poller.Live;
    hide Named, NamedSeq, Slots, Name, Piped, Flagged, Distinct, Shows, P.Poller.Clock, Elems, Apply, Enabled;
    ShowsParts(p, names, s);
    ghost var live, slots, pipe, flagged := p.Live(), p.nodes[..], p.pipe, Flagged(names);
    MineNamed(p, names);
    FlaggedIn(names);
    assert allocated(names);
    node := p.AddTimer(value, now);
    more := names[node := k];
    LiveUnflagged(p, node);
    StillNamed(names, node, k, live, pipe, slots, p.me, p.nthreads, flagged);
    NamedMore(more, live, node);
    FlaggedStill(names, node, k, flagged);
    AddTimerParts(s, Node(k, node.fd));
    t := Apply(s, AddTimer(Node(k, node.fd)), true);
    ShowsFrom(p, more, t);
  }

  lemma LiveUnflagged(p: P.Poller, n: R.RbNode)
    requires p.Valid() && n in p.Live()
    ensures !n.removed
  {
  }

  /** A timer that is not flagged is live. */
  lemma TimerIsLive(p: P.Poller, names: Names, s: State, n: R.RbNode)
    requires Shows(p, names, s) && Inv(s) && n in names && n.fd < 0
    ensures !n.removed ==> n in p.Live()
  {
    hide P.Poller.Live, Slots, NamedSeq, Conserved, IndexAgrees, BatchOwned, Control;
    NamedOnce(names, p.Live(), n);
    NamedOnce(names, names.Keys, n);
    NamedOnce(names, Flagged(names), n);
  }

  method DelTimerStep(p: P.Poller, node: R.RbNode, ghost names: Names, ghost s: State)
    returns (found: bool, ghost t: State)
    requires p.Valid() && Shows(p, names, s) && Inv(s)
    requires node.fd < 0 && node in names && Name(names, node) !in s.delivered
    modifies p`noTimeoList, node`removed
    modifies p.timers`treeFirst, p.timers`treeLast, p.timers`timeoList
    modifies p.timers.timeoTree`node, p.timers.timeoTree`tree, p.timers.timeoTree`repr, node`inRbtree
    modifies p.timers.timeoTree.repr`parent, p.timers.timeoTree.repr`left, p.timers.timeoTree.repr`right, p.timers.timeoTree.repr`color
    ensures p.Valid() && Shows(p, names, t)
    ensures Enabled(s, DelTimer(Name(names, node))) && t == Apply(s, DelTimer(Name(names, node)), true)
    ensures found <==> Name(names, node) !in s.removed
    ensures p.timers.Pending() <= old(p.timers.Pending())
  {
    hide P.Poller.Valid, P.IndexAgrees, P.Route, Named, NamedSeq, Slots, Name, P.Poller.Live, Piped, Flagged, Distinct, Shows, Inv;
    ShowsParts(p, names, s);
    TimerIsLive(p, names, s, node);
    ghost var live, flagged, x := p.Live(), Flagged(names), Name(names, node);
    FlaggedIs(names);
    FlaggedIn(names);
    NameFd(names, node);
    NamedOnce(names, names.Keys, node);
    NamedOnce(names, flagged, node);
    t := Apply(s, DelTimer(x), true);
    found := p.DelTimer(node);
    if found {
      NamedLess(names, live, {node});
      NamedMore(names, {}, node);
      assert {} + {node} == {node};
      NamedNone(names);
      NamedMore(names, flagged, node);
      FlaggedSame(names, flagged + {node});
    } else {
      FlaggedSame(names, flagged);
    }
    ShowsFrom(p, names, t);
  }

  /** The node whose handler wants to end it is live or in the pipe. */
  lemma VisitedIsOwned(p: P.Poller, names: Names, s: State, n: R.RbNode)
    requires Shows(p, names, s) && Inv(s) && Enabled(s, Remove) && n in names && s.thread.node == Name(names, n)
    ensures n.fd >= 0 && n in p.Live() + Elems(p.pipe)
  {
    hide P.Poller.Live, Slots, Name, NamedSeq, Conserved, IndexAgrees, FlagsAgree, Control;
    assert s.thread.node in Batch(s.thread);
    NameFd(names, n);
    NamedOnce(names, p.Live(), n);
    NamedElems(names, p.pipe);
    NamedOnce(names, Elems(p.pipe), n);
  }

  lemma RemoveParts(s: State)
    requires Enabled(s, Remove)
    ensures var t, x := Apply(s, Remove, true), s.thread.node;
      && !t.thread.Waiting? && !s.thread.Waiting?
      && t.accepted == s.accepted && t.pipe == s.pipe && t.stopped == s.stopped && t.removed == s.removed
      && t.live == (if x in s.removed then s.live else s.live - {x})
      && t.index == if x in s.removed then s.index else s.index - {x.fd}
  {
  }

  method RemoveStep(p: P.Poller, node: R.RbNode, ghost names: Names, ghost s: State)
    returns (removed: bool, ghost t: State)
    requires p.Valid() && Shows(p, names, s) && Inv(s)
    requires Enabled(s, Remove) && node in names && s.thread.node == Name(names, node)
    modifies p`noTimeoList, p.nodes
    modifies p.timers`treeFirst, p.timers`treeLast, p.timers`timeoList
    modifies p.timers.timeoTree`node, p.timers.timeoTree`tree, p.timers.timeoTree`repr, node`inRbtree
    modifies p.timers.timeoTree.repr`parent, p.timers.timeoTree.repr`left, p.timers.timeoTree.repr`right, p.timers.timeoTree.repr`color
    ensures p.Valid() && Shows(p, names, t) && t == Apply(s, Remove, true)
    ensures removed <==> s.thread.node in s.removed
    ensures p.timers.Pending() <= old(p.timers.Pending())
  {
    hide P.Poller.Valid, P.IndexAgrees, P.Route, Named, NamedSeq, Slots, Name, P.Poller.Live, Piped, Flagged, Distinct, Shows, Inv, Apply, Enabled;
    ShowsParts(p, names, s);
    RemoveParts(s);
    VisitedIsOwned(p, names, s, node);
    ghost var live, slots, flagged, x := p.Live(), p.nodes[..], Flagged(names), Name(names, node);
    FlaggedIs(names);
    FlaggedIn(names);
    NameFd(names, node);
    NamedOnce(names, flagged, node);
    PipedFlagged(p, node);
    t := Apply(s, Remove, true);
    removed := p.RemoveNode(node);
    if !removed {
      NamedLess(names, live, {node});
      NamedMore(names, {}, node);
      assert {} + {node} == {node};
      NamedNone(names);
      SlotEmptied(names, slots, node.fd, p.me, p.nthreads);
    }
    FlaggedSame(names, flagged);
    ShowsFrom(p, names, t);
  }

  lemma PipedFlagged(p: P.Poller, n: R.RbNode)
    requires p.Valid() && n in p.Live() + Elems(p.pipe)
    ensures n in p.Live() || n in p.pipe
    ensures n.removed <==> n in p.pipe
    ensures n.removed <==> n !in p.Live()
  {
    assert n in p.pipe ==> n in Elems(p.pipe);
  }

  method HandlePipeStep(p: P.Poller, ghost names: Names, ghost s: State) returns (done: seq<R.RbNode>, ghost t: State)
    requires p.Valid() && Shows(p, names, s) && Enabled(s, ReadPipe(|s.pipe|))
    modifies p`pipe
    ensures p.Valid() && Shows(p, names, t) && t == Apply(s, ReadPipe(|s.pipe|), true)
    ensures t.thread.Reporting? && t.thread.hand == NamedSeq(names, done)
  {
    hide P.Poller.Valid, P.IndexAgrees, P.Route, Named, NamedSeq, Slots, Name, P.Poller.Live, Piped, Flagged, Distinct, Shows;
    ShowsParts(p, names, s);
    t := Apply(s, ReadPipe(|s.pipe|), true);
    assert s.pipe[..|s.pipe|] == s.pipe && s.pipe[|s.pipe|..] == [];
    done := p.HandlePipe();
    PipedEmpty();
    NamedNone(names);
    ShowsFrom(p, names, t);
  }

  // ---------- __poller_handle_timeout and poller_stop ----------

  lemma {:induction false} NamedSeqAt(names: Names, q: seq<R.RbNode>)
    ensures |NamedSeq(names, q)| == |q| && forall i :: 0 <= i < |q| ==> NamedSeq(names, q)[i] == Name(names, q[i])
  {
    if q != [] {
      NamedSeqAt(names, q[..|q| - 1]);
    }
  }

  lemma NamedNoDup(names: Names, q: seq<R.RbNode>)
    requires Distinct(names) && Elems(q) <= names.Keys && NoDup(q)
    ensures NoDup(NamedSeq(names, q))
  {
    NamedSeqAt(names, q);
    assert forall i :: 0 <= i < |q| ==> q[i] in Elems(q);
  }

  /** What an expired or stopped set of nodes is in the protocol: its slots and its timers. */
  lemma GoneNames(names: Names, gone: seq<R.RbNode>)
    requires Elems(gone) <= names.Keys
    ensures Fds(Named(names, Elems(gone))) == P.Fds(gone)
    ensures Timers(Named(names, Elems(gone))) == Named(names, TimersOf(gone))
  {
    forall n | n in Elems(gone) ensures Name(names, n).fd == n.fd { NameFd(names, n); }
    forall fd | fd in P.Fds(gone) ensures fd in Fds(Named(names, Elems(gone))) {
      var n :| n in Elems(gone) && n.fd == fd;
      assert Name(names, n) in Named(names, Elems(gone));
    }
  }

  ghost function TimersOf(gone: seq<R.RbNode>): set<R.RbNode>
    reads Elems(gone)`fd
  {
    set n | n in Elems(gone) && n.fd < 0
  }

  lemma NamedUnion(names: Names, a: set<R.RbNode>, b: set<R.RbNode>)
    ensures Named(names, a + b) == Named(names, a) + Named(names, b)
  {
  }

  lemma SlotsForgotten(names: Names, before: seq<R.RbNode?>, after: seq<R.RbNode?>, gone: seq<R.RbNode>, me: nat, nthreads: nat)
    requires nthreads > 0 && |before| == |after|
    requires forall i :: 0 <= i < |after| ==> after[i] == if i in P.Fds(gone) then null else before[i]
    ensures Slots(names, after, me, nthreads) == Slots(names, before, me, nthreads) - P.Fds(gone)
  {
    hide P.Route, P.Fds;
  }

  /** Flags after Forget: the timers among the nodes that went have been flagged. */
  lemma FlaggedGone(names: Names, flagged: set<R.RbNode>, gone: seq<R.RbNode>)
    requires flagged <= names.Keys && Elems(gone) <= names.Keys && flagged !! Elems(gone)
    requires forall m | m in names.Keys - Elems(gone) :: m.removed <==> m in flagged
    requires forall m | m in Elems(gone) :: m.removed <==> m.fd < 0
    ensures Flagged(names) == flagged + TimersOf(gone)
  {
  }

  lemma LiveNotFlagged(p: P.Poller, names: Names)
    requires p.Valid()
    ensures Flagged(names) !! p.Live()
  {
  }

  lemma AllUnflagged(p: P.Poller)
    requires p.Valid()
    ensures forall n | n in p.Live() :: !n.removed
  {
  }

  lemma ForgottenIs(p: P.Poller, gone: seq<R.RbNode>, before: seq<R.RbNode?>)
    requires p.Forgotten(gone, before)
    ensures |before| == |p.nodes[..]|
    ensures forall i :: 0 <= i < |before| ==> p.nodes[..][i] == if i in P.Fds(gone) then null else before[i]
    ensures forall m | m in Elems(gone) :: m.removed <==> m.fd < 0
  {
    hide P.Fds;
  }

  lemma NamedSubset(names: Names, a: set<R.RbNode>, b: set<R.RbNode>)
    requires a <= b
    ensures Named(names, a) <= Named(names, b)
  {
  }

  lemma ExpireParts(s: State, due: seq<Node>)
    requires s.thread.Expiring? && NoDup(due) && Elems(due) <= s.live
    ensures Enabled(s, Expire(due))
    ensures var t := Apply(s, Expire(due), true);
      && !t.thread.Waiting? && t.accepted == s.accepted && t.pipe == s.pipe && t.stopped == s.stopped
      && t.live == s.live - Elems(due) && t.index == s.index - Fds(Elems(due)) && t.removed == s.removed + Timers(Elems(due))
  {
  }

  method HandleTimeoutStep(p: P.Poller, now: R.Timespec, ghost names: Names, ghost s: State)
    returns (expired: seq<R.RbNode>, ghost t: State)
    requires p.Valid() && Shows(p, names, s) && s.thread.Expiring?
    modifies p.nodes, p.Live()`removed
    modifies p.timers`treeFirst, p.timers`treeLast, p.timers`timeoList
    modifies p.timers.timeoTree`node, p.timers.timeoTree`tree, p.timers.timeoTree`repr
    modifies p.timers.timeoTree.repr`parent, p.timers.timeoTree.repr`left, p.timers.timeoTree.repr`right, p.timers.timeoTree.repr`color
    ensures p.Valid() && Shows(p, names, t)
    ensures Enabled(s, Expire(NamedSeq(names, expired))) && t == Apply(s, Expire(NamedSeq(names, expired)), true)
    ensures p.timers.Pending() <= old(p.timers.Pending()) && forall n | n in p.timers.Pending() :: !TQ.Le(n.timeout, now)
  {
    hide P.Poller.Valid, P.Poller.Forgotten, TQ.TimerQueue.Guarded, TQ.TimerQueue.Pending, P.IndexAgrees, P.Route, P.Poller.Live;
    hide Named, NamedSeq, Slots, Name, Piped, Flagged, Distinct, Shows, Apply, Enabled, Timers, Fds, P.Fds;
    ShowsParts(p, names, s);
    ghost var live, slots, flagged := p.Live(), p.nodes[..], Flagged(names);
    FlaggedIs(names);
    FlaggedIn(names);
    LiveNotFlagged(p, names);
    expired := p.HandleTimeout(now);
    AllUnflagged(p);
    ForgottenIs(p, expired, slots);
    DueNames(names, s, live, flagged, expired);
    SlotsForgotten(names, slots, p.nodes[..], expired, p.me, p.nthreads);
    FlaggedGone(names, flagged, expired);
    ExpireParts(s, NamedSeq(names, expired));
    t := Apply(s, Expire(NamedSeq(names, expired)), true);
    ShowsFrom(p, names, t);
  }

  lemma DueNames(names: Names, s: State, live: set<R.RbNode>, flagged: set<R.RbNode>, gone: seq<R.RbNode>)
    requires Distinct(names) && Elems(gone) <= live <= names.Keys && NoDup(gone)
    ensures NoDup(NamedSeq(names, gone)) && Elems(NamedSeq(names, gone)) <= Named(names, live)
    ensures Named(names, live - Elems(gone)) == Named(names, live) - Elems(NamedSeq(names, gone))
    ensures Fds(Elems(NamedSeq(names, gone))) == P.Fds(gone)
    ensures Named(names, flagged + TimersOf(gone)) == Named(names, flagged) + Timers(Elems(NamedSeq(names, gone)))
  {
    hide Named, NamedSeq, Name, Distinct, P.Fds, Fds, Timers, NoDup, NoDup, Elems;
    NamedElems(names, gone);
    NamedNoDup(names, gone);
    NamedLess(names, live, Elems(gone));
    NamedSubset(names, Elems(gone), live);
    GoneNames(names, gone);
    NamedUnion(names, flagged, TimersOf(gone));
  }

  method StopStep(p: P.Poller, ghost names: Names, ghost s: State)
    returns (piped: seq<R.RbNode>, rest: seq<R.RbNode>, ghost t: State)
    requires p.Valid() && Shows(p, names, s) && Inv(s) && Enabled(s, Drain)
    modifies p`noTimeoList, p`pipe, p`stopped, p.nodes, p.Live()`removed
    modifies p.timers`treeFirst, p.timers`treeLast, p.timers`timeoList
    modifies p.timers.timeoTree`node, p.timers.timeoTree`tree, p.timers.timeoTree`repr
    modifies p.timers.timeoTree.repr`parent, p.timers.timeoTree.repr`left, p.timers.timeoTree.repr`right, p.timers.timeoTree.repr`color
    ensures p.Valid() && Shows(p, names, t)
    ensures t == Apply(s, Drain, true)
    ensures t.held == s.held + Named(names, Elems(piped)) + Named(names, Elems(rest)) && p.timers.Pending() == {}
  {
    hide P.Poller.Valid, P.IndexAgrees, P.Route, Named, NamedSeq, Slots, Name, P.Poller.Live, Piped, Flagged, Distinct, Shows, Inv;
    ShowsParts(p, names, s);
    JoinedStopped(s);
    ghost var live, slots, flagged := p.Live(), p.nodes[..], Flagged(names);
    FlaggedIs(names);
    FlaggedIn(names);
    LiveNotFlagged(p, names);
    NamedElems(names, p.pipe);
    piped, rest := p.Stop();
    ForgottenIs(p, rest, slots);
    GoneNames(names, rest);
    NamedUnion(names, flagged, TimersOf(rest));
    SlotsForgotten(names, slots, p.nodes[..], rest, p.me, p.nthreads);
    FlaggedGone(names, flagged, rest);
    NamedNone(names);
    PipedEmpty();
    t := Apply(s, Drain, true);
    ShowsFrom(p, names, t);
  }

  lemma JoinedStopped(s: State)
    requires Inv(s) && s.stop.Joined?
    ensures s.stopped && s.thread.Exited?
  {
  }

  // ---------- steps of the threads themselves ----------

  /** Steps that touch neither the nodes nor the containers. */
  predicate Plain(a: Action) {
    a.Report? || a.Ask? || a.Pass? || a.Check? || a.EndBatch? || a.CallBack? || a.Resume?
  }

  lemma PlainStep(p: P.Poller, names: Names, s: State, a: Action)
    requires Shows(p, names, s) && Inv(s) && Enabled(s, a) && Plain(a)
    ensures Shows(p, names, Apply(s, a, true))
  {
    hide P.Poller.Live, Named, NamedSeq, Slots, Name, Distinct, Flagged, Conserved, IndexAgrees, FlagsAgree, BatchOwned;
    PipedPush(s.pipe, None);
  }

  method StartStep(p: P.Poller, ghost names: Names, ghost s: State) returns (ghost t: State)
    requires p.Valid() && Shows(p, names, s) && Inv(s) && Enabled(s, Start)
    modifies p`stopped
    ensures p.Valid() && Shows(p, names, t) && t == Apply(s, Start, true)
  {
    hide P.Poller.Valid, Named, NamedSeq, Slots, Name, P.Poller.Live, Piped, Flagged, Distinct, Shows;
    ShowsParts(p, names, s);
    t := Apply(s, Start, true);
    p.SetStopped(false);
    ShowsFrom(p, names, t);
  }

  method JoinStep(p: P.Poller, ghost names: Names, ghost s: State) returns (ghost t: State)
    requires p.Valid() && Shows(p, names, s) && Enabled(s, Join)
    modifies p`stopped
    ensures p.Valid() && Shows(p, names, t) && t == Apply(s, Join, true)
  {
    hide P.Poller.Valid, Named, NamedSeq, Slots, Name, P.Poller.Live, Piped, Flagged, Distinct, Shows;
    ShowsParts(p, names, s);
    t := Apply(s, Join, true);
    p.SetStopped(true);
    ShowsFrom(p, names, t);
  }

  method ArmStep(p: P.Poller, ghost names: Names, ghost s: State) returns (ghost t: State)
    requires p.Valid() && Shows(p, names, s) && Enabled(s, Arm)
    modifies p`waiting, p.timers`timerfd, p.timers`wake
    ensures p.Valid() && Shows(p, names, t) && t == Apply(s, Arm, true)
    ensures p.timers.Guarded() && (p.timers.timerfd.None? <==> p.timers.Pending() == {})
  {
    hide P.Poller.Valid, Named, NamedSeq, Slots, Name, P.Poller.Live, Piped, Flagged, Distinct, Shows;
    ShowsParts(p, names, s);
    t := Apply(s, Arm, true);
    p.SetTimer();
    ShowsFrom(p, names, t);
  }

  method WakeStep(p: P.Poller, timerEvent: bool, ghost batch: seq<Node>, ghost pipeEvent: bool, ghost names: Names, ghost s: State)
    returns (ghost t: State)
    requires p.Valid() && Shows(p, names, s) && Enabled(s, Wait(batch, pipeEvent)) && (timerEvent ==> p.timers.wake)
    modifies p`waiting, p.timers`wake
    ensures p.Valid() && Shows(p, names, t) && t == Apply(s, Wait(batch, pipeEvent), true)
  {
    hide P.Poller.Valid, Named, NamedSeq, Slots, Name, P.Poller.Live, Piped, Flagged, Distinct, Shows;
    ShowsParts(p, names, s);
    t := Apply(s, Wait(batch, pipeEvent), true);
    p.Wake(timerEvent);
    ShowsFrom(p, names, t);
  }

  method TimerFiresStep(p: P.Poller, now: R.Timespec, ghost names: Names, ghost s: State)
    requires p.Valid() && Shows(p, names, s) && p.timers.timerfd.Some? && TQ.Le(p.timers.timerfd.value, now)
    modifies p.timers`timerfd, p.timers`wake
    ensures p.Valid() && Shows(p, names, s)
  {
    hide P.Poller.Valid, Named, NamedSeq, Slots, Name, P.Poller.Live, Piped, Flagged, Distinct, Shows;
    ShowsParts(p, names, s);
    p.TimerFires(now);
    ShowsFrom(p, names, s);
  }
}
