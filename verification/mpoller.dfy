/** Several pollers that share one array of slots (src/kernel/mpoller.cc, src/kernel/mpoller.h).  A
    caller's request goes to the poller its descriptor is routed to; a step of one poller, whoever
    takes it, leaves every other poller valid and as it was, though both write to the same array. */
module MPoller {
  import opened Common
  import opened RedBlack
  import opened RbTree
  import opened TimerQueue
  import opened Poller

  /** What a poller owns: its live nodes, and those in its pipe. */
  ghost function Own(p: Poller): set<RbNode>
    reads p`noTimeoList, p`pipe, p.timers`timeoList, p.timers.timeoTree`repr
  {
    p.Live() + Elems(p.pipe)
  }

  /** Everything of a poller but its part of the index. */
  ghost predicate Inner(p: Poller)
    reads p, p.timers, p.timers.timeoTree, Own(p)
  {
    p.Containers() && p.Flags(p.Live(), p.pipe) && p.Clocked()
  }

  /** Its part of the index, with those slots. */
  ghost predicate Indexed(p: Poller, slots: seq<RbNode?>)
    reads p`noTimeoList, p`pipe, p.timers`timeoList, p.timers.timeoTree`repr, Own(p)`fd
  {
    p.me < p.nthreads && IndexAgrees(slots, p.Live(), p.me, p.nthreads)
  }

  ghost predicate Good(p: Poller)
    reads p, p.timers, p.timers.timeoTree, p.nodes, Own(p)
  {
    p.Valid()
  }

  lemma Parts(p: Poller)
    requires Good(p)
    ensures Inner(p) && Indexed(p, p.nodes[..])
  {
  }

  lemma Whole(p: Poller, slots: seq<RbNode?>, writer: nat)
    requires Inner(p) && Indexed(p, slots) && writer != p.me && |slots| == p.nodes.Length
    requires forall i :: 0 <= i < |slots| && Route(i, p.nthreads) != writer ==> p.nodes[..][i] == slots[i]
    ensures Good(p)
  {
    hide Poller.Containers, Poller.Clocked, Poller.Flags, Route, IndexAgrees;
    ForeignSlots(slots, p.nodes[..], p.Live(), writer, p.me, p.nthreads);
  }

  lemma SlotOf(p: Poller, fd: int)
    requires p.Valid() && p.Mine(fd)
    ensures p.At(fd) <= p.Live() && (0 <= fd < p.nodes.Length && p.nodes[fd] != null ==> p.nodes[fd] in p.Live())
  {
    if 0 <= fd < p.nodes.Length && p.nodes[fd] != null { p.DetachFacts(fd, p.nodes[fd]); }
  }

  lemma OwnLive(p: Poller)
    ensures p.Live() <= Own(p)
  {
  }

  lemma NewPoller(p: Poller)
    requires p.Valid() && p.Live() == {} && p.pipe == []
    ensures Good(p) && Own(p) == {}
  {
  }

  /** __mpoller_create */
  method CreateAll(buf: array<RbNode?>, n: nat) returns (made: seq<Poller>)
    requires forall i :: 0 <= i < buf.Length ==> buf[i] == null
    ensures |made| == n && forall j :: 0 <= j < n ==> made[j].nodes == buf && made[j].me == j && made[j].nthreads == n
    ensures forall j :: 0 <= j < n ==> Good(made[j]) && Own(made[j]) == {}
    ensures forall j, m :: 0 <= j < m < n ==> made[j] != made[m] && made[j].timers != made[m].timers
                                              && made[j].timers.timeoTree != made[m].timers.timeoTree
  {
    hide Poller.Valid, Good, Own;
    made := [];
    for k := 0 to n
      invariant |made| == k && forall i :: 0 <= i < buf.Length ==> buf[i] == null
      invariant forall j :: 0 <= j < k ==> made[j].nodes == buf && made[j].me == j && made[j].nthreads == n
      invariant forall j :: 0 <= j < k ==> Good(made[j]) && Own(made[j]) == {}
      invariant forall j, m :: 0 <= j < m < k ==> made[j] != made[m] && made[j].timers != made[m].timers
                                                   && made[j].timers.timeoTree != made[m].timers.timeoTree
    {
      var p := new Poller(buf, k, n);
      NewPoller(p);
      made := made + [p];
    }
  }

  /** The nodes of a poller that have a descriptor are routed to it. */
  lemma RoutedTo(p: Poller)
    requires p.Valid()
    ensures forall n | n in p.Live() && n.fd >= 0 :: Route(n.fd, p.nthreads) == p.me
  {
  }

  lemma OwnIs(p: Poller, n: RbNode)
    ensures n in Own(p) <==> n in p.Live() || n in p.pipe
  {
  }

  lemma ForgottenMine(p: Poller, gone: seq<RbNode>, live: set<RbNode>, before: seq<RbNode?>)
    requires p.nthreads > 0 && p.Forgotten(gone, before) && Elems(gone) <= live
    requires forall n | n in live && n.fd >= 0 :: Route(n.fd, p.nthreads) == p.me
    ensures |before| == p.nodes.Length
    ensures forall k :: 0 <= k < |before| && Route(k, p.nthreads) != p.me ==> p.nodes[..][k] == before[k]
  {
    hide Route;
  }

  class MPoller {
    const pollers: seq<Poller>
    const nodes: array<RbNode?>

    ghost predicate Made()
    {
      && |pollers| > 0
      && (forall j :: 0 <= j < |pollers| ==> pollers[j].nodes == nodes && pollers[j].me == j && pollers[j].nthreads == |pollers|)
      && (forall j, k :: 0 <= j < k < |pollers| ==> pollers[j] != pollers[k] && pollers[j].timers != pollers[k].timers
                                                    && pollers[j].timers.timeoTree != pollers[k].timers.timeoTree)
    }

    ghost function Others(i: nat): set<Poller> {
      set j | 0 <= j < |pollers| && j != i :: pollers[j]
    }

    /** The others with their queues and trees. */
    ghost function Base(i: nat): set<object> {
      Others(i) + (set p | p in Others(i) :: p.timers) + set p | p in Others(i) :: p.timers.timeoTree
    }

    ghost function TheirNodes(i: nat): set<RbNode>
      reads Base(i)
    {
      set p, n | p in Others(i) && n in Own(p) :: n
    }

    /** All pollers but the i-th are as they should be for those slots. */
    ghost predicate Rest(i: nat, slots: seq<RbNode?>)
      reads Base(i), TheirNodes(i)
    {
      && Made()
      && (forall p | p in Others(i) :: Inner(p) && Indexed(p, slots))
      && (forall p, q | p in Others(i) && q in Others(i) && p != q :: Own(p) !! Own(q))
    }

    ghost predicate Valid()
      reads Base(|pollers|), TheirNodes(|pollers|), nodes
    {
      && Made() && (forall j :: 0 <= j < |pollers| ==> Good(pollers[j]))
      && (forall p, q | p in Others(|pollers|) && q in Others(|pollers|) && p != q :: Own(p) !! Own(q))
    }

    lemma Split(i: nat)
      requires Valid() && i < |pollers|
      ensures Rest(i, nodes[..]) && Good(pollers[i]) && Own(pollers[i]) !! TheirNodes(i)
    {
      hide Good, Inner, Own, Indexed;
      forall p | p in Others(i) ensures Inner(p) && Indexed(p, nodes[..]) {
        Parts(p);
      }
    }

    /** The i-th poller has taken a step; it has written to its own slots only. */
    lemma Join(i: nat, slots: seq<RbNode?>)
      requires i < |pollers| && Rest(i, slots) && Good(pollers[i]) && Own(pollers[i]) !! TheirNodes(i)
      requires |slots| == nodes.Length
      requires forall k :: 0 <= k < |slots| && Route(k, |pollers|) != i ==> nodes[..][k] == slots[k]
      ensures Valid()
    {
      hide Good, Inner, Own, Indexed, Route;
      forall j | 0 <= j < |pollers| ensures Good(pollers[j]) {
        if j != i { Whole(pollers[j], slots, i); }
      }
    }

    /** What a step of the i-th poller may change, and that it is nobody else's. */
    lemma Footprint(i: nat)
      requires Valid() && i < |pollers|
      ensures var p := pollers[i];
        && {p, p.timers, p.timers.timeoTree} <= Base(|pollers|) && {p, p.timers, p.timers.timeoTree, nodes} !! Base(i) && Base(i) !! Own(p)
        && p.Live() <= Own(p) <= TheirNodes(|pollers|) && p.timers.timeoTree.repr <= p.Live()
        && p.nodes == nodes && p.me == i && p.nthreads == |pollers| && p.Valid()
    {
      hide Poller.Valid;
    }

    ghost function OthersLive(i: nat): set<RbNode>
      reads Base(i)
    {
      set p, n | p in Others(i) && n in p.Live() :: n
    }

    /** The live nodes of all pollers. */
    ghost function Live(): set<RbNode>
      reads Base(|pollers|)
    {
      OthersLive(|pollers|)
    }

    lemma LiveIs(i: nat)
      requires Valid() && i < |pollers|
      ensures Live() == pollers[i].Live() + OthersLive(i) && pollers[i].Live() !! OthersLive(i)
    {
      hide Poller.Live, Good;
      var p := pollers[i];
      assert p in Others(|pollers|);
      forall n | n in OthersLive(i) ensures n in Live() && n !in p.Live() {
        var q :| q in Others(i) && n in q.Live();
        assert q in Others(|pollers|) && q != p;
        OwnLive(p);
        OwnLive(q);
      }
    }

    /** mpoller_create: one array for all; no poller at all becomes one. */
    constructor (maxOpenFiles: nat, nthreads: nat)
      ensures Valid() && Live() == {} && nodes.Length == maxOpenFiles && |pollers| == if nthreads == 0 then 1 else nthreads
    {
      hide Poller.Valid, Good, Own;
      var buf := new RbNode?[maxOpenFiles](_ => null);
      var made := CreateAll(buf, if nthreads == 0 then 1 else nthreads);
      pollers, nodes := made, buf;
      new;
      NothingLive();
    }

    lemma NothingLive()
      requires forall j :: 0 <= j < |pollers| ==> Own(pollers[j]) == {}
      ensures Live() == {}
    {
      forall p | p in Others(|pollers|) ensures p.Live() == {} { OwnLive(p); }
    }

    /** mpoller_add */
    method Add(fd: int, timeout: int, now: Timespec, epollOk: bool) returns (r: Ret, node: RbNode?)
      requires Valid() && Normal(now) && Nanoseconds(now) > 0
      modifies Base(|pollers|), TheirNodes(|pollers|), nodes
      ensures Valid()
      ensures r.Success? <==> 0 <= fd < nodes.Length && old(nodes[..])[fd] == null && epollOk
      ensures r.Success? ==> node != null && fresh(node) && nodes[..] == old(nodes[..])[fd := node] && Live() == old(Live()) + {node}
      ensures r.Failure? ==> nodes[..] == old(nodes[..]) && Live() == old(Live())
    {
      hide Poller.Valid, Inner, Indexed, Route, Rest, MPoller.Valid, TheirNodes, Others, Base, OthersLive, MPoller.Live;
      MadeSome();
      var i := Route(fd, |pollers|);
      ghost var slots, theirs, rest := nodes[..], TheirNodes(i), OthersLive(i);
      Footprint(i);
      Split(i);
      LiveIs(i);
      assert allocated(theirs) && allocated(rest) && allocated(Base(i));
      r, node := pollers[i].Add(fd, timeout, now, epollOk);
      assert Rest(i, slots) && TheirNodes(i) == theirs && OthersLive(i) == rest;
      Join(i, slots);
      LiveIs(i);
    }

    /** mpoller_del */
    method Del(fd: int) returns (r: Ret, d: Displaced)
      requires Valid()
      modifies Base(|pollers|), TheirNodes(|pollers|), nodes
      ensures Valid()
      ensures r.Success? <==> 0 <= fd < nodes.Length && old(nodes[..])[fd] != null
      ensures r.Success? ==> nodes[..] == old(nodes[..])[fd := null] && Live() == old(Live()) - {old(nodes[..])[fd]}
      ensures r.Failure? ==> nodes[..] == old(nodes[..]) && Live() == old(Live())
    {
      hide Poller.Valid, Inner, Indexed, Route, Rest, MPoller.Valid, TheirNodes, Others, Base, OthersLive, MPoller.Live;
      MadeSome();
      var i := Route(fd, |pollers|);
      ghost var slots, theirs, rest := nodes[..], TheirNodes(i), OthersLive(i);
      Footprint(i);
      Split(i);
      LiveIs(i);
      assert allocated(theirs) && allocated(rest) && allocated(Base(i));
      SlotOf(pollers[i], fd);
      r, d := pollers[i].Del(fd);
      assert Rest(i, slots) && TheirNodes(i) == theirs && OthersLive(i) == rest;
      Join(i, slots);
      LiveIs(i);
    }

    /** mpoller_mod */
    method Mod(fd: int, timeout: int, now: Timespec, epollOk: bool) returns (r: Ret, node: RbNode?, d: Displaced)
      requires Valid() && Normal(now) && Nanoseconds(now) > 0
      modifies Base(|pollers|), TheirNodes(|pollers|), nodes
      ensures Valid()
      ensures r.Success? <==> 0 <= fd < nodes.Length && old(nodes[..])[fd] != null && epollOk
      ensures r.Success? ==> node != null && fresh(node) && nodes[..] == old(nodes[..])[fd := node]
      ensures r.Success? ==> Live() == old(Live()) - {old(nodes[..])[fd]} + {node}
      ensures r.Failure? ==> nodes[..] == old(nodes[..]) && Live() == old(Live())
    {
      hide Poller.Valid, Inner, Indexed, Route, Rest, MPoller.Valid, TheirNodes, Others, Base, OthersLive, MPoller.Live;
      MadeSome();
      var i := Route(fd, |pollers|);
      ghost var slots, theirs, rest := nodes[..], TheirNodes(i), OthersLive(i);
      Footprint(i);
      Split(i);
      LiveIs(i);
      assert allocated(theirs) && allocated(rest) && allocated(Base(i));
      SlotOf(pollers[i], fd);
      r, node, d := pollers[i].Mod(fd, timeout, now, epollOk);
      assert Rest(i, slots) && TheirNodes(i) == theirs && OthersLive(i) == rest;
      Join(i, slots);
      LiveIs(i);
    }

    /** mpoller_set_timeout */
    method SetTimeout(fd: int, timeout: int, now: Timespec) returns (r: Ret)
      requires Valid() && Normal(now) && Nanoseconds(now) > 0
      modifies Base(|pollers|), TheirNodes(|pollers|), nodes
      ensures Valid() && nodes[..] == old(nodes[..]) && Live() == old(Live())
      ensures r.Success? <==> 0 <= fd < nodes.Length && nodes[fd] != null
    {
      hide Poller.Valid, Inner, Indexed, Route, Rest, MPoller.Valid, TheirNodes, Others, Base, OthersLive, MPoller.Live;
      MadeSome();
      var i := Route(fd, |pollers|);
      ghost var slots, theirs, rest := nodes[..], TheirNodes(i), OthersLive(i);
      Footprint(i);
      Split(i);
      LiveIs(i);
      assert allocated(theirs) && allocated(rest) && allocated(Base(i));
      SlotOf(pollers[i], fd);
      r := pollers[i].SetTimeout(fd, timeout, now);
      assert Rest(i, slots) && TheirNodes(i) == theirs && OthersLive(i) == rest;
      Join(i, slots);
      LiveIs(i);
    }

    /** mpoller_add_timer; `turn` is its static counter. */
    method AddTimer(value: Timespec, now: Timespec, turn: nat) returns (node: RbNode, index: nat)
      requires Valid() && Normal(now) && Nanoseconds(now) > 0 && Normal(value) && Nanoseconds(value) >= 0
      modifies Base(|pollers|), TheirNodes(|pollers|), nodes
      ensures Valid() && fresh(node) && node.fd < 0 && nodes[..] == old(nodes[..]) && Live() == old(Live()) + {node}
      ensures index < |pollers| && node in pollers[index].Live() && node !in OthersLive(index)
    {
      hide Poller.Valid, Inner, Indexed, Route, Rest, MPoller.Valid, TheirNodes, Others, Base, OthersLive, MPoller.Live;
      MadeSome();
      index := turn % |pollers|;
      var i := index;
      ghost var slots, theirs, rest := nodes[..], TheirNodes(i), OthersLive(i);
      Footprint(i);
      Split(i);
      LiveIs(i);
      assert allocated(theirs) && allocated(rest) && allocated(Base(i));
      node := pollers[i].AddTimer(value, now);
      assert Rest(i, slots) && TheirNodes(i) == theirs && OthersLive(i) == rest;
      Join(i, slots);
      LiveIs(i);
    }

    /** mpoller_del_timer, with the index that mpoller_add_timer gave */
    method DelTimer(node: RbNode, index: nat) returns (found: bool)
      requires Valid() && index < |pollers| && node.fd < 0 && node !in TheirNodes(index)
      requires !node.removed ==> node in pollers[index].Live()
      modifies Base(|pollers|), TheirNodes(|pollers|), node
      ensures Valid() && nodes[..] == old(nodes[..]) && found == old(!node.removed) && node.removed
      ensures Live() == if found then old(Live()) - {node} else old(Live())
    {
      hide Poller.Valid, Inner, Indexed, Route, Rest, MPoller.Valid, TheirNodes, Others, Base, OthersLive, MPoller.Live;
      var i := index;
      ghost var slots, theirs, rest := nodes[..], TheirNodes(i), OthersLive(i);
      Footprint(i);
      Split(i);
      LiveIs(i);
      NoNode(i, node);
      assert allocated(theirs) && allocated(rest) && allocated(Base(i));
      found := pollers[i].DelTimer(node);
      assert Rest(i, slots) && TheirNodes(i) == theirs && OthersLive(i) == rest;
      Join(i, slots);
      LiveIs(i);
    }

    /** __poller_remove_node, in the thread of the i-th poller */
    method RemoveNode(i: nat, node: RbNode) returns (removed: bool)
      requires Valid() && i < |pollers| && node.fd >= 0 && node in Own(pollers[i])
      modifies Base(|pollers|), TheirNodes(|pollers|), nodes
      ensures Valid() && (removed <==> node !in old(Live()))
      ensures removed ==> nodes[..] == old(nodes[..]) && Live() == old(Live())
      ensures !removed ==> old(node.fd) < nodes.Length && nodes[..] == old(nodes[..])[old(node.fd) := null]
      ensures !removed ==> Live() == old(Live()) - {node}
    {
      hide Poller.Valid, Inner, Indexed, Route, Rest, MPoller.Valid, TheirNodes, Others, Base, OthersLive, MPoller.Live;
      ghost var slots, theirs, rest := nodes[..], TheirNodes(i), OthersLive(i);
      Footprint(i);
      Split(i);
      LiveIs(i);
      assert allocated(theirs) && allocated(rest) && allocated(Base(i));
      RoutedTo(pollers[i]);
      OwnIs(pollers[i], node);
      OwnApart(i, node);
      removed := pollers[i].RemoveNode(node);
      assert Rest(i, slots) && TheirNodes(i) == theirs && OthersLive(i) == rest;
      Join(i, slots);
      LiveIs(i);
    }

    /** __poller_handle_timeout, in the thread of the i-th poller: only nodes of this poller leave. */
    method HandleTimeout(i: nat, now: Timespec) returns (expired: seq<RbNode>)
      requires Valid() && i < |pollers|
      modifies Base(|pollers|), TheirNodes(|pollers|), nodes
      ensures Valid() && NoDup(expired) && Elems(expired) <= old(pollers[i].Live())
      ensures Live() == old(Live()) - Elems(expired)
    {
      hide Poller.Valid, Inner, Indexed, Route, Rest, MPoller.Valid, TheirNodes, Others, Base, OthersLive, MPoller.Live;
      ghost var slots, theirs, rest := nodes[..], TheirNodes(i), OthersLive(i);
      Footprint(i);
      Split(i);
      LiveIs(i);
      assert allocated(theirs) && allocated(rest) && allocated(Base(i));
      RoutedTo(pollers[i]);
      ghost var live := pollers[i].Live();
      expired := pollers[i].HandleTimeout(now);
      ForgottenMine(pollers[i], expired, live, slots);
      assert Rest(i, slots) && TheirNodes(i) == theirs && OthersLive(i) == rest;
      Join(i, slots);
      LiveIs(i);
    }

    /** __poller_handle_pipe, in the thread of the i-th poller */
    method HandlePipe(i: nat) returns (done: seq<RbNode>)
      requires Valid() && i < |pollers|
      modifies Base(|pollers|), TheirNodes(|pollers|), nodes
      ensures Valid() && done == old(pollers[i].pipe) && nodes[..] == old(nodes[..]) && Live() == old(Live())
    {
      hide Poller.Valid, Inner, Indexed, Route, Rest, MPoller.Valid, TheirNodes, Others, Base, OthersLive, MPoller.Live;
      ghost var slots, theirs, rest := nodes[..], TheirNodes(i), OthersLive(i);
      Footprint(i);
      Split(i);
      LiveIs(i);
      assert allocated(theirs) && allocated(rest) && allocated(Base(i));
      done := pollers[i].HandlePipe();
      assert Rest(i, slots) && TheirNodes(i) == theirs && OthersLive(i) == rest;
      Join(i, slots);
      LiveIs(i);
    }

    /** poller_stop of the i-th poller, after the join */
    method Stop(i: nat) returns (piped: seq<RbNode>, rest: seq<RbNode>)
      requires Valid() && i < |pollers|
      modifies Base(|pollers|), TheirNodes(|pollers|), nodes
      ensures Valid() && piped == old(pollers[i].pipe) && Elems(rest) == old(pollers[i].Live()) && NoDup(piped + rest)
      ensures Live() == old(Live()) - Elems(rest) && pollers[i].Live() == {}
      ensures forall j :: 0 <= j < |pollers| && j != i ==> pollers[j].Live() == old(pollers[j].Live())
      ensures TheirNodes(|pollers|) <= old(TheirNodes(|pollers|))
    {
      hide Poller.Valid, Inner, Indexed, Route, Rest, MPoller.Valid, TheirNodes, Others, Base, OthersLive, MPoller.Live;
      ghost var slots, theirs, others := nodes[..], TheirNodes(i), OthersLive(i);
      Footprint(i);
      Split(i);
      LiveIs(i);
      assert allocated(theirs) && allocated(others) && allocated(Base(i));
      RoutedTo(pollers[i]);
      ghost var live := pollers[i].Live();
      NodesAre(i);
      forall j | 0 <= j < |pollers| && j != i ensures {pollers[j], pollers[j].timers, pollers[j].timers.timeoTree} <= Base(i) {
        SplitMade();
        InBase(i, j);
      }
      piped, rest := pollers[i].Stop();
      NothingOwned(i);
      NodesAre(i);
      ForgottenMine(pollers[i], rest, live, slots);
      assert Rest(i, slots) && TheirNodes(i) == theirs && OthersLive(i) == others;
      Join(i, slots);
      LiveIs(i);
    }

    /** mpoller_stop, after the joins: nothing is left anywhere, and the whole array is empty. */
    method StopAll()
      requires Valid()
      modifies Base(|pollers|), TheirNodes(|pollers|), nodes
      ensures Valid() && Live() == {} && forall k :: 0 <= k < nodes.Length ==> nodes[k] == null
    {
      hide Poller.Valid, Inner, Indexed, Route, Rest, MPoller.Valid, TheirNodes, Others, Base, OthersLive, MPoller.Live;
      for i := 0 to |pollers|
        invariant Valid() && forall j :: 0 <= j < i ==> pollers[j].Live() == {}
        invariant forall n | n in TheirNodes(|pollers|) :: n in old(TheirNodes(|pollers|))
      {
        var piped, rest := Stop(i);
      }
      AllEmpty();
    }

    lemma OwnApart(i: nat, n: RbNode)
      requires Valid() && i < |pollers| && n in Own(pollers[i])
      ensures n in Live() <==> n in pollers[i].Live()
    {
      hide Poller.Live, Good, Poller.Valid, Own;
      LiveIs(i);
      Split(i);
      OthersOwned(i);
    }

    lemma OthersOwned(i: nat)
      ensures OthersLive(i) <= TheirNodes(i)
    {
      forall n | n in OthersLive(i) ensures n in TheirNodes(i) {
        var q :| q in Others(i) && n in q.Live();
        OwnLive(q);
      }
    }

    lemma NoNode(i: nat, n: RbNode)
      ensures Base(i) !! {n}
    {
    }

    lemma NodesAre(i: nat)
      requires i < |pollers|
      ensures TheirNodes(|pollers|) == Own(pollers[i]) + TheirNodes(i)
    {
      assert pollers[i] in Others(|pollers|);
      forall n | n in TheirNodes(i) ensures n in TheirNodes(|pollers|) {
        var q :| q in Others(i) && n in Own(q);
        assert q in Others(|pollers|);
      }
    }

    lemma InBase(i: nat, j: nat)
      requires j < |pollers| && i < |pollers| && i != j && Made()
      ensures pollers[j] in Base(i) && pollers[j].timers in Base(i) && pollers[j].timers.timeoTree in Base(i)
    {
      assert pollers[j] in Others(i);
    }

    lemma NothingOwned(i: nat)
      requires i < |pollers| && pollers[i].Live() == {} && pollers[i].pipe == []
      ensures Own(pollers[i]) == {}
    {
    }

    lemma AllEmpty()
      requires Valid() && forall j :: 0 <= j < |pollers| ==> pollers[j].Live() == {}
      ensures Live() == {} && forall k :: 0 <= k < nodes.Length ==> nodes[k] == null
    {
      hide Poller.Live, Route, Own;
      forall k | 0 <= k < nodes.Length ensures nodes[k] == null {
        var p := pollers[Route(k, |pollers|)];
        assert p.nodes[..][k] == nodes[k];
      }
    }

    lemma SplitMade()
      requires Valid()
      ensures Made()
    {
    }

    lemma MadeSome()
      requires Valid()
      ensures |pollers| > 0
    {
    }
  }
}
