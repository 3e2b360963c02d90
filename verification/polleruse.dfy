/** Whatever is done with a poller, in whatever order: callers, the poller thread, the timer of the
    kernel and poller_stop take steps, each step is taken if it can be, and what Tracked promises of
    one call holds after all of them. */
module PollerUse {
  import opened Common
  import R = RedBlack
  import TQ = TimerQueue
  import P = Poller
  import PP = PollerProtocol
  import PS = PollerSteps
  import TP = TrackedPoller
  import PE = PollerExpiry

  /** One step of somebody.  New nodes are named by the caller; a timer is deleted by its name. */
  datatype Call =
    | Del(fd: int)
    | Add(fd: int, timeout: int, now: R.Timespec, epollOk: bool, name: nat)
    | Mod(fd: int, timeout: int, now: R.Timespec, epollOk: bool, name: nat)
    | SetTimeout(fd: int, timeout: int, now: R.Timespec)
    | AddTimer(value: R.Timespec, now: R.Timespec, name: nat)
    | DelTimer(name: nat)
    | Remove
    | HandlePipe
    | HandleTimeout
    | Start
    | Join
    | Arm
    | Stop
    | Wake(timerEvent: bool, batch: seq<PP.Node>, pipeEvent: bool, now: R.Timespec)
    | TimerFires(now: R.Timespec)
    | Proceed(action: PP.Action)

  predicate NamesTimer(names: PS.Names, n: R.RbNode, name: nat)
    requires n in names
    reads n`fd
  {
    names[n] == name && n.fd < 0
  }

  /** The step can be taken now. */
  ghost predicate Ready(t: PE.Timed, c: Call)
    reads t, t.t, t.t.p, t.t.p.timers, t.t.p.nodes, t.t.names.Keys`fd
  {
    match c
    case Del(fd) => t.t.p.Mine(fd)
    case Add(fd, _, now, _, k) => t.t.p.Mine(fd) && t.t.p.Clock(now) && k !in t.t.names.Values
    case Mod(fd, _, now, _, k) => t.t.p.Mine(fd) && t.t.p.Clock(now) && k !in t.t.names.Values
    case SetTimeout(fd, _, now) => t.t.p.Mine(fd) && t.t.p.Clock(now)
    case AddTimer(value, now, k) => t.t.p.Clock(now) && TQ.Normal(value) && TQ.Nanoseconds(value) >= 0 && k !in t.t.names.Values
    case DelTimer(k) => exists n | n in t.t.names :: NamesTimer(t.t.names, n, k) && PS.Name(t.t.names, n) !in t.t.s.delivered
    case Remove => t.t.s.thread.Checking? && exists n | n in t.t.names :: t.t.s.thread.node == PS.Name(t.t.names, n)
    case HandlePipe => PP.Enabled(t.t.s, PP.ReadPipe(|t.t.s.pipe|))
    case HandleTimeout => t.t.s.thread.Expiring?
    case Start => PP.Enabled(t.t.s, PP.Action.Start)
    case Join => PP.Enabled(t.t.s, PP.Action.Join)
    case Arm => PP.Enabled(t.t.s, PP.Action.Arm)
    case Stop => PP.Enabled(t.t.s, PP.Drain)
    case Wake(timerEvent, batch, pipeEvent, now) =>
      PP.Enabled(t.t.s, PP.Wait(batch, pipeEvent)) && (timerEvent ==> t.t.p.timers.wake) && TQ.Normal(now)
    case TimerFires(now) => t.t.p.timers.timerfd.Some? && TQ.Le(t.t.p.timers.timerfd.value, now)
    case Proceed(a) => PS.Plain(a) && PP.Enabled(t.t.s, a)
  }

  /** What the step adds to the run; add and mod may fail, and two steps do not show. */
  ghost predicate Did(c: Call, more: seq<PP.Action>) {
    match c
    case Del(fd) => more == [PP.Action.Del(fd)]
    case Add(fd, _, _, _, k) => more == [] || more == [PP.Action.Add(PP.Node(k, fd))]
    case Mod(fd, _, _, _, k) => more == [] || more == [PP.Action.Mod(PP.Node(k, fd))]
    case AddTimer(_, _, k) => |more| == 1 && more[0].AddTimer? && more[0].node.id == k
    case DelTimer(k) => |more| == 1 && more[0].DelTimer? && more[0].node.id == k
    case Remove => more == [PP.Action.Remove]
    case HandlePipe => |more| == 1 && more[0].ReadPipe?
    case HandleTimeout => |more| == 1 && more[0].Expire?
    case Start => more == [PP.Action.Start]
    case Join => more == [PP.Action.Join]
    case Arm => more == [PP.Action.Arm]
    case Stop => more == [PP.Drain]
    case Wake(_, batch, pipeEvent, _) => more == [PP.Wait(batch, pipeEvent)]
    case Proceed(a) => more == [a]
    case SetTimeout(_, _, _) => more == []
    case TimerFires(_) => more == []
  }

  lemma CanRemove(s: PP.State)
    requires s.thread.Checking?
    ensures PP.Enabled(s, PP.Action.Remove)
  {
  }

  predicate ByCaller(c: Call) {
    c.Del? || c.Add? || c.Mod? || c.SetTimeout? || c.AddTimer? || c.DelTimer?
  }

  lemma NameId(names: PS.Names, n: R.RbNode)
    requires n in names
    ensures PS.Name(names, n).id == names[n]
  {
  }

  /** A caller of the poller takes the step, if it can be taken. */
  method Request(t: PE.Timed, c: Call) returns (taken: bool, ghost more: seq<PP.Action>)
    requires ByCaller(c)
    requires t.Valid()
    modifies t, t.t, t.t.p, t.t.p.timers, t.t.p.timers.timeoTree, t.t.p.nodes, t.t.names.Keys
    ensures t.Valid() && taken == old(Ready(t, c))
    ensures old(t.t.names.Keys) <= t.t.names.Keys && fresh(t.t.names.Keys - old(t.t.names.Keys))
    ensures t.t.run == old(t.t.run) + more
    ensures if taken then Did(c, more) else more == [] && t.t.s == old(t.t.s) && t.t.names == old(t.t.names)
  {
    hide PE.Timed.Valid, PP.Apply, PP.Enabled, PP.Runs, PS.Name, P.Route, TQ.Normal, TQ.Nanoseconds, TQ.Le;
    taken := false;
    match c {
      case Del(fd) => if t.t.p.Mine(fd) { taken := true; t.Del(fd); }
      case Add(fd, timeout, now, ok, k) =>
        if t.t.p.Mine(fd) && t.t.p.Clock(now) && k !in t.t.names.Values {
          taken := true;
          var r, n := t.Add(fd, timeout, now, ok, k);
        }
      case Mod(fd, timeout, now, ok, k) =>
        if t.t.p.Mine(fd) && t.t.p.Clock(now) && k !in t.t.names.Values {
          taken := true;
          var r, n := t.Mod(fd, timeout, now, ok, k);
        }
      case SetTimeout(fd, timeout, now) =>
        if t.t.p.Mine(fd) && t.t.p.Clock(now) {
          taken := true;
          var r := t.SetTimeout(fd, timeout, now);
        }
      case AddTimer(value, now, k) =>
        if t.t.p.Clock(now) && TQ.Normal(value) && TQ.Nanoseconds(value) >= 0 && k !in t.t.names.Values {
          taken := true;
          var n := t.AddTimer(value, now, k);
        }
      case DelTimer(k) =>
        if n :| n in t.t.names && NamesTimer(t.t.names, n, k) && PS.Name(t.t.names, n) !in t.t.s.delivered {
          taken := true;
          NameId(t.t.names, n);
          var found := t.DelTimer(n);
        }
    }
    more := t.t.run[|old(t.t.run)|..];
  }

  /** The poller thread, the kernel or poller_stop takes the step, if it can be taken. */
  method Work(t: PE.Timed, c: Call) returns (taken: bool, ghost more: seq<PP.Action>)
    requires !ByCaller(c)
    requires t.Valid()
    modifies t, t.t, t.t.p, t.t.p.timers, t.t.p.timers.timeoTree, t.t.p.nodes, t.t.names.Keys
    ensures t.Valid() && taken == old(Ready(t, c))
    ensures old(t.t.names.Keys) <= t.t.names.Keys && fresh(t.t.names.Keys - old(t.t.names.Keys))
    ensures t.t.run == old(t.t.run) + more
    ensures if taken then Did(c, more) else more == [] && t.t.s == old(t.t.s) && t.t.names == old(t.t.names)
  {
    hide PE.Timed.Valid, PP.Apply, PP.Enabled, PP.Runs, PS.Name, P.Route, TQ.Normal, TQ.Nanoseconds, TQ.Le;
    taken := false;
    match c {
      case Remove =>
        if t.t.s.thread.Checking? {
          CanRemove(t.t.s);
          if n :| n in t.t.names && t.t.s.thread.node == PS.Name(t.t.names, n) {
            taken := true;
            var removed := t.Remove(n);
          }
        }
      case HandlePipe => if PP.Enabled(t.t.s, PP.ReadPipe(|t.t.s.pipe|)) { taken := true; var done := t.HandlePipe(); }
      case HandleTimeout => if t.t.s.thread.Expiring? { taken := true; var expired := t.HandleTimeout(); }
      case Start => if PP.Enabled(t.t.s, PP.Action.Start) { taken := true; t.Start(); }
      case Join => if PP.Enabled(t.t.s, PP.Action.Join) { taken := true; t.Join(); }
      case Arm => if PP.Enabled(t.t.s, PP.Action.Arm) { taken := true; t.Arm(); }
      case Stop => if PP.Enabled(t.t.s, PP.Drain) { taken := true; var piped, rest := t.Stop(); }
      case Wake(timerEvent, batch, pipeEvent, now) =>
        if PP.Enabled(t.t.s, PP.Wait(batch, pipeEvent)) && (timerEvent ==> t.t.p.timers.wake) && TQ.Normal(now) {
          taken := true;
          t.Wake(timerEvent, batch, pipeEvent, now);
        }
      case TimerFires(now) =>
        if t.t.p.timers.timerfd.Some? && TQ.Le(t.t.p.timers.timerfd.value, now) {
          taken := true;
          t.TimerFires(now);
        }
      case Proceed(a) => if PS.Plain(a) && PP.Enabled(t.t.s, a) { taken := true; t.Proceed(a); }
    }
    more := t.t.run[|old(t.t.run)|..];
  }

  method Take(t: PE.Timed, c: Call) returns (taken: bool, ghost more: seq<PP.Action>)
    requires t.Valid()
    modifies t, t.t, t.t.p, t.t.p.timers, t.t.p.timers.timeoTree, t.t.p.nodes, t.t.names.Keys
    ensures t.Valid() && taken == old(Ready(t, c))
    ensures old(t.t.names.Keys) <= t.t.names.Keys && fresh(t.t.names.Keys - old(t.t.names.Keys))
    ensures t.t.run == old(t.t.run) + more
    ensures if taken then Did(c, more) else more == [] && t.t.s == old(t.t.s) && t.t.names == old(t.t.names)
  {
    hide PE.Timed.Valid, Ready, Did;
    if ByCaller(c) {
      taken, more := Request(t, c);
    } else {
      taken, more := Work(t, c);
    }
  }

  lemma Within(t: PE.Timed)
    requires t.Valid()
    ensures t.t.Valid()
  {
  }

  ghost function Concat(parts: seq<seq<PP.Action>>): seq<PP.Action> {
    if parts == [] then [] else Concat(parts[..|parts| - 1]) + parts[|parts| - 1]
  }

  /** Any sequence of steps, from a new poller on. */
  method Use(buf: array<R.RbNode?>, me: nat, nthreads: nat, calls: seq<Call>)
    returns (t: PE.Timed, taken: seq<bool>, ghost parts: seq<seq<PP.Action>>)
    requires me < nthreads && forall i :: 0 <= i < buf.Length ==> buf[i] == null
    modifies buf
    ensures t.Valid() && fresh(t) && |taken| == |parts| == |calls| && t.t.run == Concat(parts)
    ensures forall i :: 0 <= i < |calls| ==> if taken[i] then Did(calls[i], parts[i]) else parts[i] == []
    ensures forall n | n in t.t.names :: t.t.s.delivered[PS.Name(t.t.names, n)] <= 1
    ensures forall n | n in t.t.p.Live() :: n in t.t.names && PS.Name(t.t.names, n) !in t.t.s.delivered
    ensures t.t.s.thread.Waiting? ==> forall n | n in t.owing :: n !in t.t.p.timers.Pending()
  {
    hide PE.Timed.Valid, PS.Name, P.Poller.Live, Did;
    t := new PE.Timed(buf, me, nthreads);
    taken, parts := [], [];
    while |taken| < |calls|
      invariant |taken| == |parts| <= |calls| && t.t.run == Concat(parts)
      invariant forall i :: 0 <= i < |taken| ==> if taken[i] then Did(calls[i], parts[i]) else parts[i] == []
      invariant t.Valid() && fresh(t) && t.t.p.nodes == buf
      invariant fresh(t.t) && fresh(t.t.p) && fresh(t.t.p.timers) && fresh(t.t.p.timers.timeoTree) && fresh(t.t.names.Keys)
    {
      var ok, more := Take(t, calls[|taken|]);
      taken, parts := taken + [ok], parts + [more];
      assert parts[..|parts| - 1] + [more] == parts;
    }
    if t.t.s.thread.Waiting? {
      forall n | n in t.owing ensures n !in t.t.p.timers.Pending() { t.NothingOverdue(n); }
    }
    Within(t);
    forall n | n in t.t.names ensures t.t.s.delivered[PS.Name(t.t.names, n)] <= 1 { t.t.Always(n); }
    forall n | n in t.t.p.Live() ensures n in t.t.names && PS.Name(t.t.names, n) !in t.t.s.delivered {
      t.t.Facts();
      t.t.NotDelivered(n);
    }
  }
}
