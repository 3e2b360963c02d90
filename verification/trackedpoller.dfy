/** One poller together with the protocol state it shows and the run that led there.  Every
    method below is one critical section, system call or callback; any sequence of them, from the
    threads of callers, of the poller and of poller_stop, keeps Valid(), so what PollerProtocol
    proves of all runs holds of the poller at every moment. */
module TrackedPoller {
  import opened Common
  import R = RedBlack
  import TQ = TimerQueue
  import P = Poller
  import opened PollerProtocol
  import opened PollerSteps

  lemma Extend(run: seq<Action>, s: State, a: Action)
    requires Runs(INIT, run, true, s) && Enabled(s, a)
    ensures Runs(INIT, run + [a], true, Apply(s, a, true))
  {
    OneStep(s, a);
    Chain(INIT, run, s, [a], Apply(s, a, true));
  }

  class Tracked {
    const p: P.Poller
    /** The nodes ever accepted, and where threads and nodes stand. */
    var names: Names
    var s: State
    ghost var run: seq<Action>

    constructor (buf: array<R.RbNode?>, me: nat, nthreads: nat)
      requires me < nthreads && forall i :: 0 <= i < buf.Length ==> buf[i] == null
      ensures Valid() && fresh(p) && fresh(p.timers) && fresh(p.timers.timeoTree)
      ensures p.nodes == buf && p.me == me && p.nthreads == nthreads
      ensures s == INIT && names == map[] && run == []
    {
      var q := PollerSteps.Create(buf, me, nthreads);
      p := q;
      names, s, run := map[], INIT, [];
    }

    ghost predicate Valid()
      reads this, p, p.timers, p.timers.timeoTree, p.timers.timeoTree.repr, p.nodes, names.Keys`fd, names.Keys`removed
      reads Elems(p.timers.timeoList)`timeout, Elems(p.timers.timeoList)`inRbtree, Elems(p.noTimeoList)`inRbtree
      reads p.Live()`fd, p.Live()`removed, Elems(p.pipe)`removed, p.timers.Pending()`timeout
    {
      p.Valid() && Shows(p, names, s) && Runs(INIT, run, true, s)
    }

    lemma Facts()
      requires Valid()
      ensures p.Valid() && Shows(p, names, s) && Inv(s)
      ensures p.Live() <= names.Keys && p.timers.timeoTree.repr <= names.Keys
      ensures forall fd :: p.Mine(fd) ==> p.At(fd) <= names.Keys
    {
      hide Apply, Enabled, Inv, Named, NamedSeq, Slots, Flagged, Distinct, P.Route, P.Poller.Flags, P.Poller.Clocked;
      InitInv();
      forall fd | p.Mine(fd) ensures p.At(fd) <= p.Live() { SlotLive(p, fd); }
      RunKeeps(INIT, run, s);
    }

    /** The run goes one step further. */
    ghost method Took(a: Action, t: State)
      requires Runs(INIT, run, true, s) && Enabled(s, a) && t == Apply(s, a, true)
      modifies this`run
      ensures Runs(INIT, run, true, t) && run == old(run) + [a]
    {
      Extend(run, s, a);
      run := run + [a];
    }

    /** poller_del */
    method Del(fd: int)
      requires Valid() && p.Mine(fd)
      modifies this, p, p.timers, p.timers.timeoTree, p.nodes, names.Keys`inRbtree, names.Keys`removed
      modifies names.Keys`parent, names.Keys`left, names.Keys`right, names.Keys`color
      ensures Valid() && s == Apply(old(s), Action.Del(fd), true)
      ensures names == old(names) && run == old(run) + [Action.Del(fd)]
      ensures p.timers.Pending() <= old(p.timers.Pending())
    {
      hide P.Poller.Valid, Shows, Runs, Apply, Enabled, Inv, Name, P.Poller.Live;
      Facts();
      ghost var t := DelStep(p, fd, names, s);
      Took(Action.Del(fd), t);
      s := Apply(s, Action.Del(fd), true);
    }

    /** poller_add; `k` names the new node. */
    method Add(fd: int, timeout: int, now: R.Timespec, epollOk: bool, k: nat) returns (r: P.Ret, node: R.RbNode?)
      requires Valid() && p.Mine(fd) && p.Clock(now) && k !in names.Values
      modifies this, p, p.timers, p.timers.timeoTree, p.nodes, names.Keys`inRbtree, names.Keys`removed
      modifies names.Keys`parent, names.Keys`left, names.Keys`right, names.Keys`color
      ensures Valid()
      ensures r.Success? ==> Enabled(old(s), Action.Add(Node(k, fd))) && s == Apply(old(s), Action.Add(Node(k, fd)), true)
      ensures r.Success? ==> node != null && fresh(node) && node in p.Live() && names == old(names)[node := k]
      ensures r.Success? ==> run == old(run) + [Action.Add(Node(k, fd))]
      ensures r.Failure? ==> s == old(s) && names == old(names) && run == old(run)
      ensures p.timers.Pending() <= old(p.timers.Pending()) + if r.Success? then {node} else {}
    {
      hide P.Poller.Valid, Shows, Runs, Apply, Enabled, Inv, Name, P.Poller.Live;
      Facts();
      ghost var more, t;
      r, node, more, t := AddStep(p, fd, timeout, now, epollOk, names, k, s);
      if r.Success? {
        Took(Action.Add(Node(k, fd)), t);
        names, s := names[node := k], Apply(s, Action.Add(Node(k, fd)), true);
      }
    }

    /** poller_mod; `k` names the new node. */
    method Mod(fd: int, timeout: int, now: R.Timespec, epollOk: bool, k: nat) returns (r: P.Ret, node: R.RbNode?)
      requires Valid() && p.Mine(fd) && p.Clock(now) && k !in names.Values
      modifies this, p, p.timers, p.timers.timeoTree, p.nodes, names.Keys`inRbtree, names.Keys`removed
      modifies names.Keys`parent, names.Keys`left, names.Keys`right, names.Keys`color
      ensures Valid()
      ensures r.Success? ==> Enabled(old(s), Action.Mod(Node(k, fd))) && s == Apply(old(s), Action.Mod(Node(k, fd)), true)
      ensures r.Success? ==> node != null && fresh(node) && node in p.Live() && names == old(names)[node := k]
      ensures r.Success? ==> run == old(run) + [Action.Mod(Node(k, fd))]
      ensures r.Failure? ==> s == old(s) && names == old(names) && run == old(run)
      ensures p.timers.Pending() <= old(p.timers.Pending()) + if r.Success? then {node} else {}
    {
      hide P.Poller.Valid, Shows, Runs, Apply, Enabled, Inv, Name, P.Poller.Live;
      Facts();
      ghost var more, t;
      r, node, more, t := ModStep(p, fd, timeout, now, epollOk, names, k, s);
      if r.Success? {
        Took(Action.Mod(Node(k, fd)), t);
        names, s := names[node := k], Apply(s, Action.Mod(Node(k, fd)), true);
      }
    }

    /** poller_set_timeout */
    method SetTimeout(fd: int, timeout: int, now: R.Timespec) returns (r: P.Ret)
      requires Valid() && p.Mine(fd) && p.Clock(now)
      modifies this, p, p.timers, p.timers.timeoTree, p.nodes, p.At(fd)`timeout, names.Keys`inRbtree, names.Keys`removed
      modifies names.Keys`parent, names.Keys`left, names.Keys`right, names.Keys`color
      ensures Valid() && s == old(s) && names == old(names) && run == old(run)
      ensures p.timers.Pending() <= old(p.timers.Pending()) + old(p.At(fd))
    {
      hide P.Poller.Valid, Shows, Runs, Apply, Enabled, Inv, Name, P.Poller.Live;
      Facts();
      r := SetTimeoutStep(p, fd, timeout, now, names, s);
    }

    /** poller_add_timer */
    method AddTimer(value: R.Timespec, now: R.Timespec, k: nat) returns (node: R.RbNode)
      requires Valid() && p.Clock(now) && TQ.Normal(value) && TQ.Nanoseconds(value) >= 0 && k !in names.Values
      modifies this, p, p.timers, p.timers.timeoTree, p.nodes, names.Keys`inRbtree, names.Keys`removed
      modifies names.Keys`parent, names.Keys`left, names.Keys`right, names.Keys`color
      ensures Valid() && node.fd < 0 && Enabled(old(s), Action.AddTimer(Node(k, node.fd)))
      ensures s == Apply(old(s), Action.AddTimer(Node(k, node.fd)), true) && run == old(run) + [Action.AddTimer(Node(k, node.fd))]
      ensures fresh(node) && node in p.Live() && names == old(names)[node := k] && Name(names, node) !in s.delivered
      ensures p.timers.Pending() <= old(p.timers.Pending()) + {node}
    {
      hide P.Poller.Valid, Shows, Runs, Apply, Enabled, Inv, Name, P.Poller.Live;
      Facts();
      ghost var more, t;
      node, more, t := AddTimerStep(p, value, now, names, k, s);
      Took(Action.AddTimer(Node(k, node.fd)), t);
      names, s := names[node := k], Apply(s, Action.AddTimer(Node(k, node.fd)), true);
      NotDelivered(node);
    }

    /** poller_del_timer, for a timer whose callback has not run */
    method DelTimer(node: R.RbNode) returns (found: bool)
      requires Valid() && node in names && node.fd < 0 && Name(names, node) !in s.delivered
      modifies this, p, p.timers, p.timers.timeoTree, p.nodes, names.Keys`inRbtree, names.Keys`removed
      modifies names.Keys`parent, names.Keys`left, names.Keys`right, names.Keys`color
      ensures Valid() && Enabled(old(s), Action.DelTimer(old(Name(names, node))))
      ensures s == Apply(old(s), Action.DelTimer(old(Name(names, node))), true)
      ensures names == old(names) && run == old(run) + [Action.DelTimer(old(Name(names, node)))]
      ensures p.timers.Pending() <= old(p.timers.Pending())
    {
      hide P.Poller.Valid, Shows, Runs, Apply, Enabled, Inv, Name, P.Poller.Live;
      Facts();
      ghost var t;
      found, t := DelTimerStep(p, node, names, s);
      Took(Action.DelTimer(Name(names, node)), t);
      s := Apply(s, Action.DelTimer(Name(names, node)), true);
    }

    /** __poller_remove_node, by the handler that has got to it */
    method Remove(node: R.RbNode) returns (removed: bool)
      requires Valid() && Enabled(s, Action.Remove) && node in names && s.thread.node == Name(names, node)
      modifies this, p, p.timers, p.timers.timeoTree, p.nodes, names.Keys`inRbtree, names.Keys`removed
      modifies names.Keys`parent, names.Keys`left, names.Keys`right, names.Keys`color
      ensures Valid() && s == Apply(old(s), Action.Remove, true)
      ensures names == old(names) && run == old(run) + [Action.Remove]
      ensures p.timers.Pending() <= old(p.timers.Pending())
    {
      hide P.Poller.Valid, Shows, Runs, Apply, Enabled, Inv, Name, P.Poller.Live;
      Facts();
      ghost var t;
      removed, t := RemoveStep(p, node, names, s);
      Took(Action.Remove, t);
      s := Apply(s, Action.Remove, true);
    }

    /** __poller_handle_pipe */
    method HandlePipe() returns (done: seq<R.RbNode>)
      requires Valid() && Enabled(s, ReadPipe(|s.pipe|))
      modifies this, p, p.timers, p.timers.timeoTree, p.nodes, names.Keys`inRbtree, names.Keys`removed
      modifies names.Keys`parent, names.Keys`left, names.Keys`right, names.Keys`color
      ensures Valid() && s == Apply(old(s), ReadPipe(|old(s).pipe|), true)
      ensures s.thread.Reporting? && s.thread.hand == NamedSeq(names, done)
      ensures names == old(names) && run == old(run) + [ReadPipe(|old(s).pipe|)]
      ensures p.timers.Pending() == old(p.timers.Pending())
    {
      hide P.Poller.Valid, Shows, Runs, Apply, Enabled, Inv, Name, P.Poller.Live;
      Facts();
      ghost var t;
      done, t := HandlePipeStep(p, names, s);
      Took(ReadPipe(|s.pipe|), t);
      s := Apply(s, ReadPipe(|s.pipe|), true);
    }

    /** __poller_handle_timeout */
    method HandleTimeout(now: R.Timespec) returns (expired: seq<R.RbNode>)
      requires Valid() && s.thread.Expiring?
      modifies this, p, p.timers, p.timers.timeoTree, p.nodes, names.Keys`inRbtree, names.Keys`removed
      modifies names.Keys`parent, names.Keys`left, names.Keys`right, names.Keys`color
      ensures Valid() && Enabled(old(s), Expire(NamedSeq(names, expired)))
      ensures s == Apply(old(s), Expire(NamedSeq(names, expired)), true)
      ensures names == old(names) && run == old(run) + [Expire(NamedSeq(names, expired))]
      ensures p.timers.Pending() <= old(p.timers.Pending()) && forall n | n in p.timers.Pending() :: !TQ.Le(n.timeout, now)
    {
      hide P.Poller.Valid, Shows, Runs, Apply, Enabled, Inv, Name, P.Poller.Live, TQ.Le, TQ.TimerQueue.Pending;
      Facts();
      ghost var t;
      expired, t := HandleTimeoutStep(p, now, names, s);
      Took(Expire(NamedSeq(names, expired)), t);
      s := Apply(s, Expire(NamedSeq(names, expired)), true);
    }

    /** poller_start */
    method Start()
      requires Valid() && Enabled(s, Action.Start)
      modifies this, p, p.timers, p.timers.timeoTree, p.nodes, names.Keys`inRbtree, names.Keys`removed
      modifies names.Keys`parent, names.Keys`left, names.Keys`right, names.Keys`color
      ensures Valid() && s == Apply(old(s), Action.Start, true)
      ensures names == old(names) && run == old(run) + [Action.Start]
      ensures p.timers.Pending() == old(p.timers.Pending())
    {
      hide P.Poller.Valid, Shows, Runs, Apply, Enabled, Inv, Name, P.Poller.Live;
      Facts();
      ghost var t := StartStep(p, names, s);
      Took(Action.Start, t);
      s := Apply(s, Action.Start, true);
    }

    /** poller_stop: the poller thread has been joined */
    method Join()
      requires Valid() && Enabled(s, Action.Join)
      modifies this, p, p.timers, p.timers.timeoTree, p.nodes, names.Keys`inRbtree, names.Keys`removed
      modifies names.Keys`parent, names.Keys`left, names.Keys`right, names.Keys`color
      ensures Valid() && s == Apply(old(s), Action.Join, true)
      ensures names == old(names) && run == old(run) + [Action.Join]
      ensures p.timers.Pending() == old(p.timers.Pending())
    {
      hide P.Poller.Valid, Shows, Runs, Apply, Enabled, Inv, Name, P.Poller.Live;
      Facts();
      ghost var t := JoinStep(p, names, s);
      Took(Action.Join, t);
      s := Apply(s, Action.Join, true);
    }

    /** __poller_set_timer; then epoll_wait begins */
    method Arm()
      requires Valid() && Enabled(s, Action.Arm)
      modifies this, p, p.timers, p.timers.timeoTree, p.nodes, names.Keys`inRbtree, names.Keys`removed
      modifies names.Keys`parent, names.Keys`left, names.Keys`right, names.Keys`color
      ensures Valid() && s == Apply(old(s), Action.Arm, true)
      ensures names == old(names) && run == old(run) + [Action.Arm]
      ensures p.timers.Pending() == old(p.timers.Pending())
    {
      hide P.Poller.Valid, Shows, Runs, Apply, Enabled, Inv, Name, P.Poller.Live;
      Facts();
      ghost var t := ArmStep(p, names, s);
      Took(Action.Arm, t);
      s := Apply(s, Action.Arm, true);
    }

    /** poller_stop: everything that is left is taken out */
    method Stop() returns (piped: seq<R.RbNode>, rest: seq<R.RbNode>)
      requires Valid() && Enabled(s, Action.Drain)
      modifies this, p, p.timers, p.timers.timeoTree, p.nodes, names.Keys`inRbtree, names.Keys`removed
      modifies names.Keys`parent, names.Keys`left, names.Keys`right, names.Keys`color
      ensures Valid() && s == Apply(old(s), Action.Drain, true)
      ensures names == old(names) && run == old(run) + [Action.Drain]
      ensures p.timers.Pending() <= old(p.timers.Pending())
    {
      hide P.Poller.Valid, Shows, Runs, Apply, Enabled, Inv, Name, P.Poller.Live;
      Facts();
      ghost var t;
      piped, rest, t := StopStep(p, names, s);
      Took(Action.Drain, t);
      s := Apply(s, Action.Drain, true);
    }

    /** epoll_wait returns, with or without the event of the timerfd */
    method Wake(timerEvent: bool, batch: seq<Node>, pipeEvent: bool)
      requires Valid() && Enabled(s, Wait(batch, pipeEvent)) && (timerEvent ==> p.timers.wake)
      modifies this, p, p.timers, p.timers.timeoTree, p.nodes, names.Keys`inRbtree, names.Keys`removed
      modifies names.Keys`parent, names.Keys`left, names.Keys`right, names.Keys`color
      ensures Valid() && s == Apply(old(s), Wait(batch, pipeEvent), true)
      ensures names == old(names) && run == old(run) + [Wait(batch, pipeEvent)]
      ensures p.timers.Pending() == old(p.timers.Pending())
    {
      hide P.Poller.Valid, Shows, Runs, Apply, Enabled, Inv, Name, P.Poller.Live;
      Facts();
      ghost var t := WakeStep(p, timerEvent, batch, pipeEvent, names, s);
      Took(Wait(batch, pipeEvent), t);
      s := Apply(s, Wait(batch, pipeEvent), true);
    }

    /** the timerfd runs out */
    method TimerFires(now: R.Timespec)
      requires Valid() && p.timers.timerfd.Some? && TQ.Le(p.timers.timerfd.value, now)
      modifies this, p, p.timers, p.timers.timeoTree, p.nodes, names.Keys`inRbtree, names.Keys`removed
      modifies names.Keys`parent, names.Keys`left, names.Keys`right, names.Keys`color
      ensures Valid() && s == old(s) && names == old(names) && run == old(run)
      ensures p.timers.Pending() == old(p.timers.Pending())
    {
      hide P.Poller.Valid, Shows, Runs, Apply, Enabled, Inv, Name, P.Poller.Live;
      Facts();
      TimerFiresStep(p, now, names, s);
    }

    /** Callbacks, and the poller thread's way through its loop. */
    method Proceed(a: Action)
      requires Valid() && Plain(a) && Enabled(s, a)
      modifies this`s, this`run
      ensures Valid() && s == Apply(old(s), a, true)
      ensures names == old(names) && run == old(run) + [a]
      ensures p.timers.Pending() == old(p.timers.Pending())
    {
      hide P.Poller.Valid, Shows, Runs, Apply, Enabled, Inv, P.Poller.Live;
      Facts();
      PlainStep(p, names, s, a);
      ghost var t := Apply(s, a, true);
      Took(a, t);
      s := Apply(s, a, true);
    }

    lemma NotDelivered(n: R.RbNode)
      requires Valid() && n in p.Live()
      ensures Name(names, n) !in s.delivered
    {
      hide Runs, Slots, NamedSeq, Flagged, P.Poller.Valid, P.Poller.Live;
      AtMostOnce(run, s, Name(names, n));
      NamedOnce(names, p.Live(), n);
    }

    /** At every moment of every use of a poller: a node has had at most one terminal callback, and
        none while it is live; and while the poller thread waits, no pending deadline can pass
        unnoticed. */
    lemma Always(n: R.RbNode)
      requires Valid() && n in names
      ensures s.delivered[Name(names, n)] <= 1
      ensures n in p.Live() ==> Name(names, n) !in s.delivered
      ensures p.waiting && n in p.timers.Pending() ==> (p.timers.wake
        || (p.timers.timerfd.Some? && TQ.Nanoseconds(p.timers.timerfd.value) <= TQ.Nanoseconds(n.timeout)))
    {
      hide Runs, Slots, NamedSeq, Flagged, P.Poller.Containers, P.Poller.Index, P.Poller.Flags;
      AtMostOnce(run, s, Name(names, n));
      NamedOnce(names, p.Live(), n);
      if p.waiting && n in p.timers.Pending() { p.NoLostTimeout(n); }
    }

    /** Once poller_stop has drained the poller and all callbacks have been made, every node that
        was ever registered has had exactly one terminal callback. */
    lemma AfterStop(n: R.RbNode)
      requires Valid() && n in names
      requires p.Live() == {} && p.pipe == [] && Hand(s.thread) == [] && s.held == {}
      ensures s.delivered[Name(names, n)] == 1
    {
      hide Runs, Slots, Flagged, P.Poller.Live, P.Poller.Valid, Hand, Piped;
      NamedNone(names);
      ExactlyOnce(run, s);
      NamedOnce(names, names.Keys, n);
    }
  }
}
