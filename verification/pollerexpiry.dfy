/** No deadline is passed over: between a return of epoll_wait and the next wait the poller thread
    takes out whatever was pending at that return and due by the clock it read then
    (src/kernel/poller.cc:629-674).  A Timed poller is a tracked one with that clock and those nodes;
    its methods are again single steps, in any order. */
module PollerExpiry {
  import opened Common
  import R = RedBlack
  import TQ = TimerQueue
  import P = Poller
  import TP = TrackedPoller
  import opened PollerProtocol
  import opened PollerSteps

  /** The poller thread has taken out what was due since epoll_wait returned. */
  ghost predicate Past(t: Thread) {
    t.Arming? || t.Waiting? || (t.Reporting? && Past(t.next))
  }

  lemma PlainPast(s: State, a: Action)
    requires Plain(a) && Enabled(s, a) && Past(Apply(s, a, true).thread)
    ensures Past(s.thread)
  {
    match a
    case Report(_) =>
    case Ask =>
    case Pass =>
    case Check =>
    case EndBatch =>
    case CallBack =>
    case Resume =>
  }

  /** No other step but expiry and the start gets the thread there. */
  lemma OtherPast(s: State, a: Action)
    requires !Plain(a) && !a.Start? && !a.Expire? && Enabled(s, a) && Past(Apply(s, a, true).thread)
    ensures Past(s.thread) && !a.Wait? && !a.ReadPipe?
  {
    match a
    case Add(_) =>
    case Del(_) =>
    case Mod(_) =>
    case AddTimer(_) =>
    case DelTimer(_) =>
    case Join =>
    case Drain =>
    case Arm =>
    case Wait(_, _) =>
    case Remove =>
    case ReadPipe(_) =>
  }

  ghost predicate AllDue(q: set<R.RbNode>, clock: R.Timespec)
    reads q`timeout
  {
    forall n | n in q :: TQ.Nanoseconds(n.timeout) <= TQ.Nanoseconds(clock)
  }

  lemma DueLess(q: set<R.RbNode>, r: set<R.RbNode>, clock: R.Timespec)
    requires q <= r && AllDue(r, clock)
    ensures AllDue(q, clock)
  {
  }

  class Timed {
    const t: TP.Tracked
    /** The clock of the poller thread when epoll_wait returned last. */
    var woke: R.Timespec
    /** The nodes that were pending then and due, but for those that got a new deadline since. */
    ghost var owing: set<R.RbNode>

    constructor (buf: array<R.RbNode?>, me: nat, nthreads: nat)
      requires me < nthreads && forall i :: 0 <= i < buf.Length ==> buf[i] == null
      ensures Valid() && fresh(t) && fresh(t.p) && fresh(t.p.timers) && fresh(t.p.timers.timeoTree)
      ensures t.p.nodes == buf && t.p.me == me && t.p.nthreads == nthreads
      ensures t.s == INIT && t.names == map[] && t.run == [] && owing == {}
    {
      hide TP.Tracked.Valid;
      t := new TP.Tracked(buf, me, nthreads);
      woke, owing := R.Timespec(0, 0), {};
    }

    /** Those that have not left. */
    ghost function Overdue(): set<R.RbNode>
      reads this`owing, t.p.timers`timeoList, t.p.timers.timeoTree`repr
    {
      owing * t.p.timers.Pending()
    }

    ghost predicate Expires()
      reads this, t, t.p.timers`timeoList, t.p.timers.timeoTree`repr, Overdue()`timeout
    {
      TQ.Normal(woke) && AllDue(Overdue(), woke) && (Past(t.s.thread) ==> Overdue() == {})
    }

    ghost predicate Valid()
      reads this, t, t.p, t.p.timers, t.p.timers.timeoTree, t.p.timers.timeoTree.repr, t.p.nodes
      reads t.names.Keys`fd, t.names.Keys`removed, t.names.Keys`timeout
      reads Elems(t.p.timers.timeoList)`timeout, Elems(t.p.timers.timeoList)`inRbtree, Elems(t.p.noTimeoList)`inRbtree
      reads t.p.Live()`fd, t.p.Live()`removed, Elems(t.p.pipe)`removed, t.p.timers.Pending()`timeout
    {
      t.Valid() && Expires()
    }

    /** After a step in which nothing became overdue. */
    lemma StillExpires(q: set<R.RbNode>, past: bool)
      requires TQ.Normal(woke) && AllDue(q, woke) && Overdue() <= q && (past ==> q == {}) && (Past(t.s.thread) ==> past)
      ensures Expires()
    {
      DueLess(Overdue(), q, woke);
    }

    lemma Fewer(q: set<R.RbNode>, before: set<R.RbNode>, more: set<R.RbNode>)
      requires q == owing * before && t.p.timers.Pending() <= before + more && more !! owing
      ensures Overdue() <= q
    {
    }

    /** poller_del */
    method Del(fd: int)
      requires Valid() && t.p.Mine(fd)
      modifies this, t, t.p, t.p.timers, t.p.timers.timeoTree, t.p.nodes, t.names.Keys
      ensures Valid() && owing == old(owing) && woke == old(woke)
      ensures t.s == Apply(old(t.s), Action.Del(fd), true)
      ensures t.names == old(t.names) && t.run == old(t.run) + [Action.Del(fd)]
    {
      hide TP.Tracked.Valid, AllDue, Past, Apply, Enabled, TQ.TimerQueue.Pending, TQ.Nanoseconds;
      ghost var q, before, s := Overdue(), t.p.timers.Pending(), t.s;
      assert allocated(q);
      t.Del(fd);
      if Past(t.s.thread) { OtherPast(s, Action.Del(fd)); }
      Fewer(q, before, {});
      StillExpires(q, Past(s.thread));
    }

    /** poller_add */
    method Add(fd: int, timeout: int, now: R.Timespec, epollOk: bool, k: nat) returns (r: P.Ret, node: R.RbNode?)
      requires Valid() && t.p.Mine(fd) && t.p.Clock(now) && k !in t.names.Values
      modifies this, t, t.p, t.p.timers, t.p.timers.timeoTree, t.p.nodes, t.names.Keys
      ensures Valid() && owing == old(owing) && woke == old(woke)
      ensures r.Success? ==> Enabled(old(t.s), Action.Add(Node(k, fd))) && t.s == Apply(old(t.s), Action.Add(Node(k, fd)), true)
      ensures r.Success? ==> node != null && fresh(node) && node in t.p.Live() && t.names == old(t.names)[node := k]
      ensures r.Success? ==> t.run == old(t.run) + [Action.Add(Node(k, fd))]
      ensures r.Failure? ==> t.s == old(t.s) && t.names == old(t.names) && t.run == old(t.run)
    {
      hide TP.Tracked.Valid, AllDue, Past, Apply, Enabled, TQ.TimerQueue.Pending, TQ.Nanoseconds;
      ghost var q, before, s := Overdue(), t.p.timers.Pending(), t.s;
      assert allocated(q) && allocated(owing);
      r, node := t.Add(fd, timeout, now, epollOk, k);
      if r.Success? && Past(t.s.thread) { OtherPast(s, Action.Add(Node(k, fd))); }
      Fewer(q, before, if r.Success? then {node} else {});
      StillExpires(q, Past(s.thread));
    }

    /** poller_mod */
    method Mod(fd: int, timeout: int, now: R.Timespec, epollOk: bool, k: nat) returns (r: P.Ret, node: R.RbNode?)
      requires Valid() && t.p.Mine(fd) && t.p.Clock(now) && k !in t.names.Values
      modifies this, t, t.p, t.p.timers, t.p.timers.timeoTree, t.p.nodes, t.names.Keys
      ensures Valid() && owing == old(owing) && woke == old(woke)
      ensures r.Success? ==> Enabled(old(t.s), Action.Mod(Node(k, fd))) && t.s == Apply(old(t.s), Action.Mod(Node(k, fd)), true)
      ensures r.Success? ==> node != null && fresh(node) && node in t.p.Live() && t.names == old(t.names)[node := k]
      ensures r.Success? ==> t.run == old(t.run) + [Action.Mod(Node(k, fd))]
      ensures r.Failure? ==> t.s == old(t.s) && t.names == old(t.names) && t.run == old(t.run)
    {
      hide TP.Tracked.Valid, AllDue, Past, Apply, Enabled, TQ.TimerQueue.Pending, TQ.Nanoseconds;
      ghost var q, before, s := Overdue(), t.p.timers.Pending(), t.s;
      assert allocated(q) && allocated(owing);
      r, node := t.Mod(fd, timeout, now, epollOk, k);
      if r.Success? && Past(t.s.thread) { OtherPast(s, Action.Mod(Node(k, fd))); }
      Fewer(q, before, if r.Success? then {node} else {});
      StillExpires(q, Past(s.thread));
    }

    /** poller_set_timeout: the node has a new deadline. */
    method SetTimeout(fd: int, timeout: int, now: R.Timespec) returns (r: P.Ret)
      requires Valid() && t.p.Mine(fd) && t.p.Clock(now)
      modifies this, t, t.p, t.p.timers, t.p.timers.timeoTree, t.p.nodes, t.names.Keys
      ensures Valid() && t.s == old(t.s) && t.names == old(t.names) && t.run == old(t.run)
      ensures owing == old(owing) - old(t.p.At(fd)) && woke == old(woke)
    {
      hide TP.Tracked.Valid, AllDue, Past, Apply, Enabled, TQ.TimerQueue.Pending, TQ.Nanoseconds;
      t.Facts();
      ghost var at := t.p.At(fd);
      ghost var q, before, s := Overdue() - at, t.p.timers.Pending(), t.s;
      DueLess(q, Overdue(), woke);
      assert allocated(q);
      r := t.SetTimeout(fd, timeout, now);
      owing := owing - at;
      Fewer(q, before, at);
      StillExpires(q, Past(s.thread));
    }

    /** poller_add_timer */
    method AddTimer(value: R.Timespec, now: R.Timespec, k: nat) returns (node: R.RbNode)
      requires Valid() && t.p.Clock(now) && TQ.Normal(value) && TQ.Nanoseconds(value) >= 0 && k !in t.names.Values
      modifies this, t, t.p, t.p.timers, t.p.timers.timeoTree, t.p.nodes, t.names.Keys
      ensures Valid() && owing == old(owing) && woke == old(woke)
      ensures node.fd < 0 && Enabled(old(t.s), Action.AddTimer(Node(k, node.fd)))
      ensures t.s == Apply(old(t.s), Action.AddTimer(Node(k, node.fd)), true)
      ensures t.run == old(t.run) + [Action.AddTimer(Node(k, node.fd))]
      ensures fresh(node) && node in t.p.Live() && t.names == old(t.names)[node := k]
    {
      hide TP.Tracked.Valid, AllDue, Past, Apply, Enabled, TQ.TimerQueue.Pending, TQ.Nanoseconds;
      ghost var q, before, s := Overdue(), t.p.timers.Pending(), t.s;
      assert allocated(q) && allocated(owing);
      node := t.AddTimer(value, now, k);
      if Past(t.s.thread) { OtherPast(s, Action.AddTimer(Node(k, node.fd))); }
      Fewer(q, before, {node});
      StillExpires(q, Past(s.thread));
    }

    /** poller_del_timer */
    method DelTimer(node: R.RbNode) returns (found: bool)
      requires Valid() && node in t.names && node.fd < 0 && Name(t.names, node) !in t.s.delivered
      modifies this, t, t.p, t.p.timers, t.p.timers.timeoTree, t.p.nodes, t.names.Keys
      ensures Valid() && owing == old(owing) && woke == old(woke)
      ensures Enabled(old(t.s), Action.DelTimer(old(Name(t.names, node))))
      ensures t.s == Apply(old(t.s), Action.DelTimer(old(Name(t.names, node))), true)
      ensures t.names == old(t.names) && t.run == old(t.run) + [Action.DelTimer(old(Name(t.names, node)))]
    {
      hide TP.Tracked.Valid, AllDue, Past, Apply, Enabled, TQ.TimerQueue.Pending, TQ.Nanoseconds;
      ghost var q, before, s, a := Overdue(), t.p.timers.Pending(), t.s, Action.DelTimer(Name(t.names, node));
      assert allocated(q);
      found := t.DelTimer(node);
      if Past(t.s.thread) { OtherPast(s, a); }
      Fewer(q, before, {});
      StillExpires(q, Past(s.thread));
    }

    /** __poller_remove_node */
    method Remove(node: R.RbNode) returns (removed: bool)
      requires Valid() && Enabled(t.s, Action.Remove) && node in t.names && t.s.thread.node == Name(t.names, node)
      modifies this, t, t.p, t.p.timers, t.p.timers.timeoTree, t.p.nodes, t.names.Keys
      ensures Valid() && owing == old(owing) && woke == old(woke)
      ensures t.s == Apply(old(t.s), Action.Remove, true)
      ensures t.names == old(t.names) && t.run == old(t.run) + [Action.Remove]
    {
      hide TP.Tracked.Valid, AllDue, Past, Apply, Enabled, TQ.TimerQueue.Pending, TQ.Nanoseconds;
      ghost var q, before, s := Overdue(), t.p.timers.Pending(), t.s;
      assert allocated(q);
      removed := t.Remove(node);
      if Past(t.s.thread) { OtherPast(s, Action.Remove); }
      Fewer(q, before, {});
      StillExpires(q, Past(s.thread));
    }

    /** __poller_handle_pipe */
    method HandlePipe() returns (done: seq<R.RbNode>)
      requires Valid() && Enabled(t.s, ReadPipe(|t.s.pipe|))
      modifies this, t, t.p, t.p.timers, t.p.timers.timeoTree, t.p.nodes, t.names.Keys
      ensures Valid() && owing == old(owing) && woke == old(woke)
      ensures t.s == Apply(old(t.s), ReadPipe(|old(t.s).pipe|), true)
      ensures t.names == old(t.names) && t.run == old(t.run) + [ReadPipe(|old(t.s).pipe|)]
    {
      hide TP.Tracked.Valid, AllDue, Past, Apply, Enabled, TQ.TimerQueue.Pending, TQ.Nanoseconds;
      ghost var q, before, s := Overdue(), t.p.timers.Pending(), t.s;
      assert allocated(q);
      done := t.HandlePipe();
      if Past(t.s.thread) { OtherPast(s, ReadPipe(|s.pipe|)); }
      Fewer(q, before, {});
      StillExpires(q, Past(s.thread));
    }

    /** __poller_handle_timeout, with the clock of the wake-up */
    method HandleTimeout() returns (expired: seq<R.RbNode>)
      requires Valid() && t.s.thread.Expiring?
      modifies this, t, t.p, t.p.timers, t.p.timers.timeoTree, t.p.nodes, t.names.Keys
      ensures Valid() && owing == old(owing) && woke == old(woke)
      ensures Enabled(old(t.s), Expire(NamedSeq(t.names, expired)))
      ensures t.s == Apply(old(t.s), Expire(NamedSeq(t.names, expired)), true)
      ensures t.names == old(t.names) && t.run == old(t.run) + [Expire(NamedSeq(t.names, expired))]
    {
      hide TP.Tracked.Valid, AllDue, Past, Apply, Enabled, TQ.TimerQueue.Pending, TQ.Nanoseconds;
      ghost var q, before := Overdue(), t.p.timers.Pending();
      assert allocated(q);
      expired := t.HandleTimeout(woke);
      Fewer(q, before, {});
      NoneLeft(q);
      StillExpires({}, true);
    }

    lemma NoneLeft(q: set<R.RbNode>)
      requires t.Valid() && TQ.Normal(woke) && AllDue(q, woke) && Overdue() <= q
      requires forall n | n in t.p.timers.Pending() :: !TQ.Le(n.timeout, woke)
      ensures Overdue() == {} && AllDue({}, woke)
    {
      hide P.Poller.Valid, Shows, Runs, TQ.TimerQueue.Pending, TQ.Le, TQ.Nanoseconds;
      forall n | n in Overdue() ensures false { t.p.DueInTime(n, woke); }
    }

    /** poller_start */
    method Start()
      requires Valid() && Enabled(t.s, Action.Start)
      modifies this, t, t.p, t.p.timers, t.p.timers.timeoTree, t.p.nodes, t.names.Keys
      ensures Valid() && owing == {} && woke == old(woke)
      ensures t.s == Apply(old(t.s), Action.Start, true)
      ensures t.names == old(t.names) && t.run == old(t.run) + [Action.Start]
    {
      hide TP.Tracked.Valid, AllDue, Past, Apply, Enabled, TQ.TimerQueue.Pending, TQ.Nanoseconds;
      DueLess({}, Overdue(), woke);
      t.Start();
      owing := {};
      StillExpires({}, true);
    }

    /** poller_stop: the poller thread has been joined */
    method Join()
      requires Valid() && Enabled(t.s, Action.Join)
      modifies this, t, t.p, t.p.timers, t.p.timers.timeoTree, t.p.nodes, t.names.Keys
      ensures Valid() && owing == old(owing) && woke == old(woke)
      ensures t.s == Apply(old(t.s), Action.Join, true)
      ensures t.names == old(t.names) && t.run == old(t.run) + [Action.Join]
    {
      hide TP.Tracked.Valid, AllDue, Past, Apply, Enabled, TQ.TimerQueue.Pending, TQ.Nanoseconds;
      ghost var q, before, s := Overdue(), t.p.timers.Pending(), t.s;
      assert allocated(q);
      t.Join();
      if Past(t.s.thread) { OtherPast(s, Action.Join); }
      Fewer(q, before, {});
      StillExpires(q, Past(s.thread));
    }

    /** __poller_set_timer; then epoll_wait begins */
    method Arm()
      requires Valid() && Enabled(t.s, Action.Arm)
      modifies this, t, t.p, t.p.timers, t.p.timers.timeoTree, t.p.nodes, t.names.Keys
      ensures Valid() && owing == old(owing) && woke == old(woke)
      ensures t.s == Apply(old(t.s), Action.Arm, true)
      ensures t.names == old(t.names) && t.run == old(t.run) + [Action.Arm]
    {
      hide TP.Tracked.Valid, AllDue, Past, Apply, Enabled, TQ.TimerQueue.Pending, TQ.Nanoseconds;
      ghost var q, before, s := Overdue(), t.p.timers.Pending(), t.s;
      assert allocated(q);
      t.Arm();
      if Past(t.s.thread) { OtherPast(s, Action.Arm); }
      Fewer(q, before, {});
      StillExpires(q, Past(s.thread));
    }

    /** poller_stop: everything that is left is taken out */
    method Stop() returns (piped: seq<R.RbNode>, rest: seq<R.RbNode>)
      requires Valid() && Enabled(t.s, Action.Drain)
      modifies this, t, t.p, t.p.timers, t.p.timers.timeoTree, t.p.nodes, t.names.Keys
      ensures Valid() && owing == old(owing) && woke == old(woke)
      ensures t.s == Apply(old(t.s), Action.Drain, true)
      ensures t.names == old(t.names) && t.run == old(t.run) + [Action.Drain]
    {
      hide TP.Tracked.Valid, AllDue, Past, Apply, Enabled, TQ.TimerQueue.Pending, TQ.Nanoseconds;
      ghost var q, before, s := Overdue(), t.p.timers.Pending(), t.s;
      assert allocated(q);
      piped, rest := t.Stop();
      if Past(t.s.thread) { OtherPast(s, Action.Drain); }
      Fewer(q, before, {});
      StillExpires(q, Past(s.thread));
    }

    /** epoll_wait returns, and the clock is read. */
    method Wake(timerEvent: bool, batch: seq<Node>, pipeEvent: bool, now: R.Timespec)
      requires Valid() && Enabled(t.s, Wait(batch, pipeEvent)) && (timerEvent ==> t.p.timers.wake) && TQ.Normal(now)
      modifies this, t, t.p, t.p.timers, t.p.timers.timeoTree, t.p.nodes, t.names.Keys
      ensures Valid() && woke == now && t.p.timers.Pending() == old(t.p.timers.Pending())
      ensures owing == set n | n in t.p.timers.Pending() && TQ.Nanoseconds(n.timeout) <= TQ.Nanoseconds(now)
      ensures t.s == Apply(old(t.s), Wait(batch, pipeEvent), true)
      ensures t.names == old(t.names) && t.run == old(t.run) + [Wait(batch, pipeEvent)]
    {
      hide TP.Tracked.Valid, AllDue, Past, Apply, Enabled, TQ.TimerQueue.Pending, TQ.Nanoseconds;
      ghost var s := t.s;
      t.Wake(timerEvent, batch, pipeEvent);
      if Past(t.s.thread) { OtherPast(s, Wait(batch, pipeEvent)); }
      woke, owing := now, set n | n in t.p.timers.Pending() && TQ.Nanoseconds(n.timeout) <= TQ.Nanoseconds(now);
      WokenNow();
    }

    lemma WokenNow()
      requires TQ.Normal(woke) && !Past(t.s.thread)
      requires owing == set n | n in t.p.timers.Pending() && TQ.Nanoseconds(n.timeout) <= TQ.Nanoseconds(woke)
      ensures Expires()
    {
    }

    /** the timerfd runs out */
    method TimerFires(now: R.Timespec)
      requires Valid() && t.p.timers.timerfd.Some? && TQ.Le(t.p.timers.timerfd.value, now)
      modifies this, t, t.p, t.p.timers, t.p.timers.timeoTree, t.p.nodes, t.names.Keys
      ensures Valid() && owing == old(owing) && woke == old(woke)
      ensures t.s == old(t.s) && t.names == old(t.names) && t.run == old(t.run)
    {
      hide TP.Tracked.Valid, AllDue, Past, Apply, Enabled, TQ.TimerQueue.Pending, TQ.Nanoseconds;
      ghost var q, before, s := Overdue(), t.p.timers.Pending(), t.s;
      assert allocated(q);
      t.TimerFires(now);
      Fewer(q, before, {});
      StillExpires(q, Past(s.thread));
    }

    /** Callbacks, and the poller thread's way through its loop. */
    method Proceed(a: Action)
      requires Valid() && Plain(a) && Enabled(t.s, a)
      modifies this, t, t.p, t.p.timers, t.p.timers.timeoTree, t.p.nodes, t.names.Keys
      ensures Valid() && owing == old(owing) && woke == old(woke)
      ensures t.s == Apply(old(t.s), a, true)
      ensures t.names == old(t.names) && t.run == old(t.run) + [a]
    {
      hide TP.Tracked.Valid, AllDue, Past, Apply, Enabled, TQ.TimerQueue.Pending, TQ.Nanoseconds;
      ghost var q, before, s := Overdue(), t.p.timers.Pending(), t.s;
      assert allocated(q);
      t.Proceed(a);
      if Past(t.s.thread) { PlainPast(s, a); }
      Fewer(q, before, {});
      StillExpires(q, Past(s.thread));
    }

    /** When the poller thread waits again after a wake-up, or is about to, no node that was pending
        at that wake-up and due by its clock is still pending, unless a caller has given it a new
        deadline since. */
    lemma NothingOverdue(n: R.RbNode)
      requires Valid() && (t.s.thread.Waiting? || t.s.thread.Arming?) && n in owing
      ensures n !in t.p.timers.Pending()
    {
      hide TP.Tracked.Valid, AllDue;
      assert n !in Overdue();
    }
  }
}
