/** The pipe of a poller holds a bounded number of pointers.  poller_del and poller_mod write to it
    inside the critical section (src/kernel/poller.cc:955 and src/kernel/poller.cc:994), so with the
    pipe full a caller sleeps there and keeps the mutex.  Only steps that need no mutex can make
    room for it. */
module PollerPipe {
  import opened PollerProtocol

  /** Steps that can be taken while some caller holds the mutex. */
  ghost predicate NeedsNoMutex(a: Action) {
    a.Wait? || a.Pass? || a.Check? || a.EndBatch? || a.ReadPipe? || a.CallBack? || a.Resume? || a.Report? || a.Join?
  }

  ghost predicate NoMutex(run: seq<Action>) {
    forall i :: 0 <= i < |run| ==> NeedsNoMutex(run[i])
  }

  /** The poller thread can get to the pipe without the mutex: it is in epoll_wait, or in a batch
      that contains the event of the pipe and not in the middle of ending a node. */
  ghost predicate OnItsWay(t: Thread) {
    t.Waiting? || (t.Visiting? && t.pipeEvent) || (t.Reporting? && OnItsWay(t.next))
  }

  lemma OffItsWayStays(s: State, a: Action)
    requires Enabled(s, a) && NeedsNoMutex(a) && !OnItsWay(s.thread)
    ensures !OnItsWay(Apply(s, a, true).thread) && Apply(s, a, true).pipe == s.pipe
  {
  }

  lemma {:induction false} StaysFull(s: State, run: seq<Action>, t: State)
    requires Runs(s, run, true, t) && NoMutex(run) && !OnItsWay(s.thread)
    ensures t.pipe == s.pipe && !OnItsWay(t.thread)
    decreases |run|
  {
    hide Apply, Enabled;
    if run != [] {
      assert NeedsNoMutex(run[0]);
      OffItsWayStays(s, run[0]);
      assert forall i :: 0 <= i < |run[1..]| ==> run[1..][i] == run[i + 1];
      StaysFull(Apply(s, run[0], true), run[1..], t);
    }
  }

  ghost function Steps(t: Thread): nat {
    match t
    case Waiting => 1
    case Visiting(b, _) => |b|
    case Reporting(h, next) => 1 + |h| + Steps(next)
    case _ => 0
  }

  ghost function Towards(s: State): Action
    requires OnItsWay(s.thread)
  {
    match s.thread
    case Waiting => Wait([], true)
    case Visiting(b, _) => if b != [] then Pass else ReadPipe(|s.pipe|)
    case Reporting(h, _) => if h != [] then CallBack else Resume
  }

  lemma TowardsFacts(s: State)
    requires OnItsWay(s.thread)
    ensures Enabled(s, Towards(s)) && NeedsNoMutex(Towards(s))
    ensures var t := Apply(s, Towards(s), true);
      if Towards(s).ReadPipe? then t.pipe == [] else OnItsWay(t.thread) && Steps(t.thread) < Steps(s.thread) && t.pipe == s.pipe
  {
    hide Piped;
  }

  lemma {:induction false} CanBeRead(s: State) returns (run: seq<Action>, t: State)
    requires OnItsWay(s.thread)
    ensures Runs(s, run, true, t) && NoMutex(run) && t.pipe == []
    decreases Steps(s.thread)
  {
    hide Apply, Enabled, OnItsWay, Towards;
    var a := Towards(s);
    TowardsFacts(s);
    var m := Apply(s, a, true);
    if a.ReadPipe? {
      run, t := [a], m;
      OneStep(s, a);
    } else {
      run, t := CanBeRead(m);
      OneStep(s, a);
      Chain(s, [a], m, run, t);
      run := [a] + run;
    }
  }

  /** A caller that sleeps on a full pipe can be released if and only if the poller thread is on
      its way to the pipe.  Otherwise the caller, and with it every thread that wants the mutex,
      sleeps for ever. */
  lemma FullPipeExactly(s: State, cap: nat)
    requires |s.pipe| == cap > 0
    ensures (exists run, t :: Runs(s, run, true, t) && NoMutex(run) && |t.pipe| < cap) <==> OnItsWay(s.thread)
  {
    hide Runs, OnItsWay, NoMutex;
    if OnItsWay(s.thread) {
      var run, t := CanBeRead(s);
    } else {
      forall run, t | Runs(s, run, true, t) && NoMutex(run) ensures |t.pipe| == cap {
        StaysFull(s, run, t);
      }
    }
  }

  // ---------- a full pipe can be reached ----------

  /** A run during which the pipe never holds more than `cap` entries. */
  ghost predicate RunsWithin(s: State, run: seq<Action>, cap: nat, t: State)
    decreases |run|
  {
    |s.pipe| <= cap
    && if run == [] then s == t
       else Enabled(s, run[0]) && RunsWithin(Apply(s, run[0], true), run[1..], cap, t)
  }

  lemma {:induction false} Longer(s: State, run: seq<Action>, cap: nat, m: State, a: Action)
    requires RunsWithin(s, run, cap, m) && Enabled(m, a) && |Apply(m, a, true).pipe| <= cap
    ensures RunsWithin(s, run + [a], cap, Apply(m, a, true))
    decreases |run|
  {
    hide Apply, Enabled;
    if run == [] {
      assert run + [a] == [a];
      assert RunsWithin(Apply(m, a, true), [a][1..], cap, Apply(m, a, true));
    } else {
      Longer(Apply(s, run[0], true), run[1..], cap, m, a);
      assert (run + [a])[1..] == run[1..] + [a];
    }
  }

  /** The poller thread is about to take the mutex for expiry, `n` deleted nodes are in the pipe
      and nothing is registered. */
  ghost predicate Filled(s: State, n: nat) {
    && s.thread.Expiring? && !s.stopped && s.index == map[] && |s.pipe| == n
    && forall m :: m in s.accepted ==> m.id < n
  }

  lemma {:induction false} Fill(n: nat, cap: nat) returns (run: seq<Action>, s: State)
    requires n <= cap
    ensures RunsWithin(INIT, run, cap, s) && Filled(s, n)
  {
    if n == 0 {
      run, s := [], INIT;
      Longer(INIT, run, cap, s, Start);
      run, s := run + [Start], Apply(s, Start, true);
      Longer(INIT, run, cap, s, Arm);
      run, s := run + [Arm], Apply(s, Arm, true);
      Longer(INIT, run, cap, s, Wait([], false));
      run, s := run + [Wait([], false)], Apply(s, Wait([], false), true);
      Longer(INIT, run, cap, s, EndBatch);
      run, s := run + [EndBatch], Apply(s, EndBatch, true);
    } else {
      run, s := Fill(n - 1, cap);
      var x := Node(n - 1, 0);
      Longer(INIT, run, cap, s, Add(x));
      run, s := run + [Add(x)], Apply(s, Add(x), true);
      assert s.index == map[0 := x];
      Longer(INIT, run, cap, s, Del(0));
      run, s := run + [Del(0)], Apply(s, Del(0), true);
    }
  }

  /** For every capacity there is a run after which the next poller_del sleeps for ever: the pipe is
      full, its poller thread needs the mutex for expiry, and a registered descriptor is left. */
  lemma DeadlockReachable(cap: nat) returns (run: seq<Action>, s: State, fd: int)
    requires cap > 0
    ensures RunsWithin(INIT, run, cap, s) && |s.pipe| == cap && fd in s.index && !s.stopped && !OnItsWay(s.thread)
  {
    run, s := Fill(cap, cap);
    var x := Node(cap, 0);
    Longer(INIT, run, cap, s, Add(x));
    run, s := run + [Add(x)], Apply(s, Add(x), true);
    fd := 0;
  }
}
