/** poller_stop comes to its end, whoever is scheduled (src/kernel/poller.cc:1116-1171).  Two things
    are taken from the kernel: epoll_wait, which reports at most POLLER_EVENTS_MAX events, reports
    the pipe as long as something is in it; and a read of a pipe with something in it returns
    something.  Then, once poller_stop has begun, no run goes on for ever but for new requests, and
    where it can go on no further every node has had its callback. */
module PollerEnd {
  import opened Common
  import opened PollerProtocol

  const EVENTS_MAX := 256

  ghost predicate PromptStep(s: State, a: Action) {
    && (a.Wait? ==> |a.batch| <= EVENTS_MAX && (s.pipe != [] ==> a.pipeEvent))
    && (a.ReadPipe? && s.pipe != [] ==> a.count > 0)
  }

  /** What a caller decides; the poller is not started again. */
  ghost predicate Asks(a: Action) {
    a.Add? || a.Del? || a.Mod? || a.AddTimer? || a.DelTimer?
  }

  /** A run of the kernel as described, in which poller_start is not called. */
  ghost predicate Prompt(s: State, run: seq<Action>)
    decreases |run|
  {
    run == []
    || (Enabled(s, run[0]) && PromptStep(s, run[0]) && !run[0].Start? && Prompt(Apply(s, run[0], true), run[1..]))
  }

  ghost function Requested(run: seq<Action>): nat {
    if run == [] then 0 else One(Asks(run[0])) + Requested(run[1..])
  }

  // ---------- what is still to be done ----------

  /** The entries of the pipe up to the null pointer. */
  ghost function Ahead(pipe: seq<Option<Node>>): nat {
    if pipe == [] then 0 else if pipe[0].None? then 1 else 1 + Ahead(pipe[1..])
  }

  lemma {:induction false} AheadMore(pipe: seq<Option<Node>>, x: Option<Node>)
    requires None in pipe
    ensures Ahead(pipe + [x]) == Ahead(pipe) && None in pipe + [x]
  {
    assert (pipe + [x])[0] == pipe[0];
    if pipe[0].Some? {
      assert (pipe + [x])[1..] == pipe[1..] + [x];
      AheadMore(pipe[1..], x);
    }
  }

  lemma {:induction false} AheadLess(pipe: seq<Option<Node>>, k: nat)
    requires k <= |pipe| && None !in pipe[..k]
    ensures Ahead(pipe) == Ahead(pipe[k..]) + k
  {
    if k > 0 {
      assert pipe[..k][0] == pipe[0];
      assert forall x :: x in pipe[1..][..k - 1] ==> x in pipe[..k];
      AheadLess(pipe[1..], k - 1);
      assert pipe[1..][k - 1..] == pipe[k..];
    } else {
      assert pipe[0..] == pipe;
    }
  }

  lemma {:induction false} PipedShort(pipe: seq<Option<Node>>)
    ensures |Piped(pipe)| <= |pipe|
  {
    if pipe != [] { PipedShort(pipe[..|pipe| - 1]); }
  }

  const ARMING := 3 * EVENTS_MAX + 4
  const ROUND := 3 * EVENTS_MAX + 8

  /** The steps of the poller thread until it waits. */
  ghost function ThreadToDo(t: Thread): nat {
    match t
    case Exited => 0
    case Arming => ARMING
    case Waiting => ARMING - 1
    case Visiting(b, p) => 3 * |b| + 1 + if p then 0 else ARMING + 2
    case Checking(_, _, b, p) => 3 * |b| + 3 + if p then 0 else ARMING + 2
    case Reporting(h, next) => 2 * |h| + 1 + ThreadToDo(next)
    case Expiring => ARMING + 2
  }

  ghost function StopToDo(s: Stop): nat {
    match s
    case Asked => 2
    case Joined => 1
    case Idle => 0
  }

  ghost function ToDo(s: State): nat {
    4 * |s.live| + 3 * |s.pipe| + 2 * |s.held| + ThreadToDo(s.thread) + StopToDo(s.stop)
    + if Leaving(s.thread) then 0 else ROUND * Ahead(s.pipe)
  }

  /** poller_stop has begun, or has ended. */
  ghost predicate Winding(s: State) {
    !s.stop.Idle? || s.stopped
  }

  lemma StaysWinding(s: State, a: Action)
    requires Inv(s) && Winding(s) && Enabled(s, a) && !a.Start?
    ensures Winding(Apply(s, a, true))
  {
    hide Conserved, IndexAgrees, FlagsAgree, BatchOwned, Piped;
  }

  lemma PipeHasEnd(s: State)
    requires Inv(s) && Winding(s)
    ensures Leaving(s.thread) || (s.stop.Asked? && !s.stopped && None in s.pipe)
    ensures s.stopped ==> s.thread.Exited?
  {
    hide Conserved, IndexAgrees, FlagsAgree, BatchOwned, Piped;
  }

  // ---------- each step leaves less to do ----------

  lemma Plus<T>(q: set<T>, x: T)
    ensures |q + {x}| <= |q| + 1
    ensures x in q ==> |q - {x}| == |q| - 1
    ensures |q - {x}| <= |q|
  {
    if x in q {
      assert q + {x} == q && q == (q - {x}) + {x};
    } else {
      assert |q + {x}| == |q| + 1 && q - {x} == q;
    }
  }

  lemma {:induction false} ElemsCount<T>(q: seq<T>)
    ensures |Elems(q)| <= |q|
    ensures NoDup(q) ==> |Elems(q)| == |q|
  {
    if q != [] {
      var n := |q| - 1;
      assert q == q[..n] + [q[n]];
      assert Elems(q) == Elems(q[..n]) + {q[n]};
      ElemsCount(q[..n]);
      Plus(Elems(q[..n]), q[n]);
      if NoDup(q) { assert q[n] !in Elems(q[..n]); }
    }
  }

  lemma Minus<T>(q: set<T>, r: set<T>)
    requires r <= q
    ensures |q - r| == |q| - |r|
  {
    assert q == (q - r) + r;
  }

  lemma Union<T>(q: set<T>, r: set<T>)
    ensures |q + r| <= |q| + |r|
  {
    assert q + r == q + (r - q);
    Minus(r, r * q);
    assert r - q == r - r * q;
  }

  lemma RegisterAdds(s: State, n: Node)
    ensures ToDo(Register(s, n)) <= ToDo(s) + 4
    ensures ToDo(s.(accepted := s.accepted + {n}, live := s.live + {n})) <= ToDo(s) + 4
  {
    hide Leaving, ThreadToDo, StopToDo;
    Plus(s.live, n);
  }

  lemma IndexLive(s: State, fd: int)
    requires Inv(s) && fd in s.index
    ensures s.index[fd] in s.live
  {
    hide Conserved, FlagsAgree, BatchOwned, Control;
  }

  lemma TimerAdds(s: State, n: Node)
    requires n in s.live
    ensures ToDo(s.(removed := s.removed + {n}, live := s.live - {n}, held := s.held + {n})) <= ToDo(s)
  {
    hide Leaving, ThreadToDo, StopToDo;
    Plus(s.live, n);
    Plus(s.held, n);
  }

  /** The steps of a caller add at most four. */
  lemma AskAdds(s: State, a: Action)
    requires Inv(s) && Winding(s) && Enabled(s, a) && Asks(a)
    ensures ToDo(Apply(s, a, true)) <= ToDo(s) + 4
  {
    hide Inv, Winding, Leaving, ToDo, Displace, Unlink, Register;
    PipeHasEnd(s);
    match a
    case Add(n) => RegisterAdds(s, n);
    case AddTimer(n) => RegisterAdds(s, n);
    case DelTimer(n) =>
      if n !in s.removed {
        TimerLive(s, n);
        TimerAdds(s, n);
      }
    case Del(fd) =>
      if fd in s.index { DisplaceAdds(s, s.index[fd]); }
    case Mod(n) =>
      if n.fd in s.index {
        IndexLive(s, n.fd);
        DisplaceAdds(s, s.index[n.fd]);
        RegisterAdds(Displace(Unlink(s, s.index[n.fd]), s.index[n.fd]), n);
      }
  }

  lemma TimerLive(s: State, n: Node)
    requires Inv(s) && n in s.accepted && n.fd < 0 && n !in s.removed
    ensures n in s.live
  {
    hide Conserved, IndexAgrees, BatchOwned, Control;
  }

  lemma DisplaceAdds(s: State, n: Node)
    requires Leaving(s.thread) || None in s.pipe
    ensures var t := Displace(Unlink(s, n), n);
      && ToDo(t) <= ToDo(s) + 3 && t.live == s.live - {n} && t.thread == s.thread && t.stop == s.stop
      && (n in s.live ==> ToDo(t) < ToDo(s))
  {
    hide Leaving, ThreadToDo, StopToDo;
    Plus(s.live, n);
    Plus(s.held, n);
    if None in s.pipe { AheadMore(s.pipe, Some(n)); }
  }

  /** Steps of the poller thread that touch neither the pipe nor a container. */
  ghost predicate Walks(a: Action) {
    a.Arm? || a.Pass? || a.Check? || a.EndBatch? || a.CallBack? || a.Resume?
  }

  lemma WalkFalls(s: State, a: Action)
    requires Enabled(s, a) && Walks(a)
    ensures var t := Apply(s, a, true);
      && ThreadToDo(t.thread) < ThreadToDo(s.thread) && (Leaving(t.thread) <==> Leaving(s.thread))
      && t.live == s.live && t.pipe == s.pipe && t.held == s.held && t.stop == s.stop
  {
    match a
    case Arm =>
    case Pass =>
    case Check =>
    case EndBatch =>
    case CallBack =>
    case Resume =>
  }

  lemma WaitFalls(s: State, b: seq<Node>, p: bool)
    requires Enabled(s, Wait(b, p)) && PromptStep(s, Wait(b, p)) && s.pipe != []
    ensures ToDo(Apply(s, Wait(b, p), true)) < ToDo(s)
  {
    hide Ahead;
  }

  lemma ReportToDo(h: seq<Node>, next: Thread)
    ensures ThreadToDo(Reporting(h, next)) == 2 * |h| + 1 + ThreadToDo(next)
    ensures Leaving(Reporting(h, next)) == Leaving(next)
  {
  }

  lemma RemoveFalls(s: State)
    requires Enabled(s, Remove) && (s.thread.node in s.live || s.thread.node in s.removed)
    ensures ToDo(Apply(s, Remove, true)) < ToDo(s)
  {
    hide Ahead;
    Plus(s.live, s.thread.node);
    var rest := Visiting(s.thread.batch, s.thread.pipeEvent);
    ReportToDo([s.thread.node], rest);
  }

  lemma CheckedOwned(s: State)
    requires Inv(s) && s.thread.Checking?
    ensures s.thread.node in s.live || s.thread.node in s.removed
  {
    hide Conserved, IndexAgrees, Control, Piped;
    assert s.thread.node in Batch(s.thread);
  }

  lemma ReadParts(s: State, k: nat)
    requires Enabled(s, ReadPipe(k))
    ensures ThreadToDo(s.thread) == 1 && !Leaving(s.thread) && k <= |s.pipe|
    ensures var t, next := Apply(s, ReadPipe(k), true), if None in s.pipe[..k] then Exited else Expiring;
      && t.live == s.live && t.held == s.held && t.stop == s.stop && t.pipe == s.pipe[k..]
      && t.thread == Reporting(Piped(s.pipe[..k]), next) && Leaving(t.thread) == next.Exited?
  {
    hide Piped, Ahead;
  }

  lemma ReadFalls(s: State, k: nat)
    requires Enabled(s, ReadPipe(k)) && k > 0 && None in s.pipe
    ensures ToDo(Apply(s, ReadPipe(k), true)) < ToDo(s)
  {
    hide Piped, Apply, Enabled, Leaving, Ahead;
    ReadParts(s, k);
    var h := Piped(s.pipe[..k]);
    PipedShort(s.pipe[..k]);
    if None !in s.pipe[..k] {
      AheadLess(s.pipe, k);
      ReportToDo(h, Expiring);
    } else {
      ReportToDo(h, Exited);
    }
  }

  lemma ExpireFalls(s: State, due: seq<Node>)
    requires Enabled(s, Expire(due))
    ensures ToDo(Apply(s, Expire(due), true)) < ToDo(s)
  {
    hide Ahead, NoDup;
    ElemsCount(due);
    Minus(s.live, Elems(due));
    ReportToDo(due, Arming);
  }

  lemma DrainFalls(s: State)
    requires Enabled(s, Drain) && Leaving(s.thread)
    ensures ToDo(Apply(s, Drain, true)) < ToDo(s)
  {
    hide Ahead, Piped, ThreadToDo;
    PipedShort(s.pipe);
    ElemsCount(Piped(s.pipe));
    Union(s.held + Elems(Piped(s.pipe)), s.live);
    Union(s.held, Elems(Piped(s.pipe)));
  }

  lemma StopperFalls(s: State, a: Action)
    requires Enabled(s, a) && (a.Join? || a.Report?)
    ensures ToDo(Apply(s, a, true)) < ToDo(s)
  {
    hide Ahead, ThreadToDo, Leaving;
    if a.Report? { Plus(s.held, a.node); }
  }

  lemma NoAsk(s: State, a: Action)
    requires Winding(s) && Enabled(s, a)
    ensures !a.Ask?
  {
  }

  /** Where the thread stands when a step of it is taken. */
  lemma NotLeft(s: State, a: Action)
    requires Inv(s) && Winding(s) && Enabled(s, a)
    ensures a.Wait? || a.ReadPipe? ==> None in s.pipe
    ensures a.Drain? ==> Leaving(s.thread)
  {
    hide Inv, Piped;
    PipeHasEnd(s);
    if a.Drain? { JoinedExited(s); }
  }

  lemma ToDoFalls(s: State, a: Action)
    requires Inv(s) && Winding(s) && Enabled(s, a) && PromptStep(s, a) && !a.Start?
    ensures ToDo(Apply(s, a, true)) + 1 <= ToDo(s) + 5 * One(Asks(a))
  {
    hide Inv, Winding, Apply, Enabled, ToDo, Leaving, Ahead;
    NotLeft(s, a);
    NoAsk(s, a);
    if Asks(a) {
      AskAdds(s, a);
    } else if Walks(a) {
      WalkFalls(s, a);
      WalkToDo(s, Apply(s, a, true));
    } else {
      match a
      case Wait(b, p) => WaitFalls(s, b, p);
      case Remove =>
        CanRemove(s);
        CheckedOwned(s);
        RemoveFalls(s);
      case ReadPipe(k) => ReadFalls(s, k);
      case Expire(due) => ExpireFalls(s, due);
      case Drain => DrainFalls(s);
      case Join => StopperFalls(s, a);
      case Report(_) => StopperFalls(s, a);
    }
  }

  lemma WalkToDo(s: State, t: State)
    requires ThreadToDo(t.thread) < ThreadToDo(s.thread) && (Leaving(t.thread) <==> Leaving(s.thread))
    requires t.live == s.live && t.pipe == s.pipe && t.held == s.held && t.stop == s.stop
    ensures ToDo(t) < ToDo(s)
  {
    hide Leaving, ThreadToDo, Ahead;
  }

  lemma CanRemove(s: State)
    requires Enabled(s, Remove)
    ensures s.thread.Checking?
  {
  }

  /** Once poller_stop has begun every run is finite, but for the requests of callers. */
  lemma {:induction false} RunsAreBounded(s: State, run: seq<Action>, t: State)
    requires Inv(s) && Winding(s) && Runs(s, run, true, t) && Prompt(s, run)
    ensures |run| + ToDo(t) <= ToDo(s) + 5 * Requested(run)
    decreases |run|
  {
    hide Inv, Winding, Apply, Enabled, ToDo, PromptStep, Asks;
    if run != [] {
      StepKeeps(s, run[0]);
      StaysWinding(s, run[0]);
      ToDoFalls(s, run[0]);
      RunsAreBounded(Apply(s, run[0], true), run[1..], t);
    }
  }

  // ---------- where it ends ----------

  /** A step of the poller thread or of poller_stop, such as the kernel allows. */
  ghost function Next(s: State): Action {
    if !s.thread.Exited? then Onward(s)
    else if s.stop.Asked? then Join
    else if s.stop.Joined? then Drain
    else if s.held != {} then Report(var n :| n in s.held; n)
    else Start
  }

  lemma NextEnabled(s: State)
    requires Inv(s) && Winding(s) && (!s.stop.Idle? || s.held != {})
    ensures Enabled(s, Next(s)) && PromptStep(s, Next(s)) && !Asks(Next(s)) && !Next(s).Start?
  {
    hide Conserved, IndexAgrees, FlagsAgree, BatchOwned, Piped, Hand, Batch;
  }

  /** Nobody can take a step but callers with new requests. */
  ghost predicate Quiescent(s: State) {
    forall a :: Enabled(s, a) && PromptStep(s, a) ==> Asks(a) || a.Start?
  }

  lemma QuietIsIdle(s: State)
    requires Inv(s) && Winding(s) && Quiescent(s)
    ensures s.stop.Idle? && s.stopped && s.pipe == [] && s.held == {} && s.thread.Exited?
  {
    hide Conserved, IndexAgrees, FlagsAgree, BatchOwned, Piped, Hand, Batch, Enabled, Asks, PromptStep, Next;
    if !s.stop.Idle? || s.held != {} { NextEnabled(s); }
  }

  /** The nodes that were there before the drain do not come back. */
  ghost predicate Old(s: State, before: set<Node>) {
    before <= s.accepted && (s.stop.Idle? ==> before !! s.live)
  }

  lemma OldStep(s: State, a: Action, before: set<Node>)
    requires Enabled(s, a) && Old(s, before) && !a.Start?
    ensures Old(Apply(s, a, true), before)
  {
    match a
    case Mod(n) =>
    case Del(_) =>
    case Expire(_) =>
    case Remove =>
    case _ =>
  }

  lemma {:induction false} OldRun(s: State, run: seq<Action>, t: State, before: set<Node>)
    requires Runs(s, run, true, t) && Prompt(s, run) && Old(s, before)
    ensures Old(t, before)
    decreases |run|
  {
    hide Apply, Enabled, Old, PromptStep;
    if run != [] {
      OldStep(s, run[0], before);
      OldRun(Apply(s, run[0], true), run[1..], t, before);
    }
  }

  lemma {:induction false} WindingRun(s: State, run: seq<Action>, t: State)
    requires Inv(s) && Winding(s) && Runs(s, run, true, t) && Prompt(s, run)
    ensures Winding(t) && Inv(t)
    decreases |run|
  {
    hide Apply, Enabled, Inv, Winding, PromptStep;
    if run != [] {
      StepKeeps(s, run[0]);
      StaysWinding(s, run[0]);
      WindingRun(Apply(s, run[0], true), run[1..], t);
    }
  }

  /** From any reachable state in which poller_stop has begun: a run is no longer than what there is
      to do and what callers add to it; and where it can go on no further, poller_stop is over, and
      every node accepted before has had exactly one callback. */
  lemma StopEnds(pre: seq<Action>, s: State, run: seq<Action>, t: State)
    requires Runs(INIT, pre, true, s) && !s.stop.Idle? && Runs(s, run, true, t) && Prompt(s, run)
    ensures |run| <= ToDo(s) + 5 * Requested(run)
    ensures Quiescent(t) ==> t.stop.Idle? && t.stopped && t.pipe == [] && t.held == {}
    ensures Quiescent(t) ==> forall n | n in s.accepted :: t.delivered[n] == 1
  {
    hide Inv, Runs, Prompt, Quiescent, ToDo, Old;
    InitInv();
    RunKeeps(INIT, pre, s);
    RunsAreBounded(s, run, t);
    WindingRun(s, run, t);
    if Quiescent(t) {
      QuietIsIdle(t);
      assert Old(s, s.accepted) by { OldNow(s); }
      OldRun(s, run, t, s.accepted);
      forall n | n in s.accepted ensures t.delivered[n] == 1 { OldDelivered(t, s.accepted, n); }
    }
  }

  lemma OldNow(s: State)
    requires !s.stop.Idle?
    ensures Old(s, s.accepted)
  {
  }

  lemma OldDelivered(t: State, before: set<Node>, n: Node)
    requires Inv(t) && Old(t, before) && n in before && t.stop.Idle?
    requires t.pipe == [] && t.held == {} && t.thread.Exited?
    ensures t.delivered[n] == 1
  {
    hide IndexAgrees, FlagsAgree, BatchOwned, Control;
    assert Places(t, n) == One(n in t.accepted);
  }
}
