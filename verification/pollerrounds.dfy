/** The poller thread's way through its loop, told by its history alone
    (src/kernel/poller.cc:619-677): every event that epoll_wait reports is looked at, in order; a pipe
    event is dealt with after them; and deadlines are looked at before the next wait. */
module PollerRounds {
  import opened Common
  import opened PollerProtocol

  datatype Round = Round(
    todo: seq<Node>,      // reported events that no handler has looked at
    at: Option<Node>,     // the node that a handler is about to end
    untouched: bool,      // no del or mod of its descriptor since the handler read `removed`
    pipeEvent: bool,      // the pipe has been reported and not been read
    expired: bool)        // the deadlines have been looked at since

  const NOTHING := Round([], None, true, false, true)

  ghost function Touched(h: Round, fd: int): Round {
    if h.at.Some? && h.at.value.fd == fd then h.(untouched := false) else h
  }

  ghost function Note(h: Round, a: Action): Round {
    match a
    case Start => NOTHING
    case Wait(b, p) => Round(b, None, true, p, false)
    case Pass => if h.todo == [] then h else h.(todo := h.todo[1..])
    case Check => if h.todo == [] then h else h.(at := Some(h.todo[0]), todo := h.todo[1..], untouched := true)
    case Remove => h.(at := None)
    case Del(fd) => Touched(h, fd)
    case Mod(n) => Touched(h, n.fd)
    case ReadPipe(_) => h.(pipeEvent := false)
    case Expire(_) => h.(expired := true)
    case _ => h
  }

  ghost function After(h: Round, run: seq<Action>): Round
    decreases |run|
  {
    if run == [] then h else After(Note(h, run[0]), run[1..])
  }

  ghost predicate Agree(t: Thread, removed: set<Node>, h: Round) {
    match t
    case Visiting(b, p) => h.todo == b && h.pipeEvent == p && h.at == None
    case Checking(n, seen, b, p) =>
      h.todo == b && h.pipeEvent == p && h.at == Some(n) && (h.untouched ==> (seen <==> n in removed))
    case Reporting(_, next) => !next.Checking? && !next.Reporting? && Agree(next, removed, h)
    case Expiring => h.todo == [] && !h.pipeEvent && h.at == None
    case Arming => h.todo == [] && !h.pipeEvent && h.at == None && h.expired
    case Waiting => h.todo == [] && !h.pipeEvent && h.at == None && h.expired
    case Exited => h.at == None
  }

  /** Only a Checking thread depends on the flags. */
  lemma FlagsApart(t: Thread, a: set<Node>, b: set<Node>, h: Round)
    requires Agree(t, a, h) && !t.Checking?
    ensures Agree(t, b, h)
  {
  }

  lemma CallerAgrees(s: State, h: Round, a: Action)
    requires Inv(s) && Agree(s.thread, s.removed, h) && Enabled(s, a)
    requires a.Add? || a.Del? || a.Mod? || a.AddTimer? || a.DelTimer? || a.Report? || a.Ask? || a.Join? || a.Drain?
    ensures Agree(Apply(s, a, true).thread, Apply(s, a, true).removed, Note(h, a))
  {
    hide Conserved, Piped, Hand, Control;
    var t := Apply(s, a, true);
    assert t.thread == s.thread;
    if s.thread.Checking? {
      assert s.thread.node in Batch(s.thread);
      assert s.thread.node.fd >= 0;
    } else {
      NotChecking(s.thread, h);
      FlagsApart(s.thread, s.removed, t.removed, h);
    }
  }

  lemma NotChecking(t: Thread, h: Round)
    requires !t.Checking?
    ensures forall r :: Agree(t, r, h) ==> h.at == None
  {
    if t.Reporting? { NotReporting(t.next, h); }
  }

  lemma NotReporting(t: Thread, h: Round)
    ensures forall r :: Agree(t, r, h) && !t.Checking? && !t.Reporting? ==> h.at == None
  {
  }

  lemma ThreadAgrees(s: State, h: Round, a: Action)
    requires Inv(s) && Agree(s.thread, s.removed, h) && Enabled(s, a)
    requires a.Start? || a.Arm? || a.Wait? || a.Pass? || a.Check? || a.Remove? || a.EndBatch? || a.CallBack? || a.Resume?
    ensures Agree(Apply(s, a, true).thread, Apply(s, a, true).removed, Note(h, a))
  {
    hide Conserved, Piped, Hand, IndexAgrees, FlagsAgree, BatchOwned;
    match a
    case Start =>
    case Arm =>
    case Wait(_, _) =>
    case Pass =>
    case Check =>
    case Remove =>
    case EndBatch =>
    case CallBack =>
    case Resume =>
  }

  lemma ReadAgrees(s: State, h: Round, a: Action)
    requires Agree(s.thread, s.removed, h) && Enabled(s, a) && (a.ReadPipe? || a.Expire?)
    ensures Agree(Apply(s, a, true).thread, Apply(s, a, true).removed, Note(h, a))
  {
    hide Piped;
  }

  lemma StepAgrees(s: State, h: Round, a: Action)
    requires Inv(s) && Agree(s.thread, s.removed, h) && Enabled(s, a)
    ensures Agree(Apply(s, a, true).thread, Apply(s, a, true).removed, Note(h, a))
  {
    hide Inv, Apply, Enabled, Agree, Note;
    if a.ReadPipe? || a.Expire? {
      ReadAgrees(s, h, a);
    } else if a.Start? || a.Arm? || a.Wait? || a.Pass? || a.Check? || a.Remove? || a.EndBatch? || a.CallBack? || a.Resume? {
      ThreadAgrees(s, h, a);
    } else {
      CallerAgrees(s, h, a);
    }
  }

  lemma {:induction false} RunAgrees(s: State, h: Round, run: seq<Action>, t: State)
    requires Inv(s) && Agree(s.thread, s.removed, h) && Runs(s, run, true, t)
    ensures Inv(t) && Agree(t.thread, t.removed, After(h, run))
    decreases |run|
  {
    hide Inv, Apply, Enabled, Agree, Note;
    if run != [] {
      StepKeeps(s, run[0]);
      StepAgrees(s, h, run[0]);
      RunAgrees(Apply(s, run[0], true), Note(h, run[0]), run[1..], t);
    }
  }

  /** Over every run: a batch ends, or the pipe is read, only after every reported event has been
      looked at, and by whether the pipe was reported; the thread goes to wait only after that and
      after it has looked at the deadlines; and a handler ends the node it was called for, with the
      flag that is still right if nobody has deleted or replaced the node since. */
  lemma InTurn(run: seq<Action>, s: State, a: Action)
    requires Runs(INIT, run, true, s) && Enabled(s, a)
    ensures var h := After(NOTHING, run);
      && (a.EndBatch? ==> h.todo == [] && !h.pipeEvent)
      && (a.ReadPipe? ==> h.todo == [] && h.pipeEvent)
      && (a.Arm? ==> h.todo == [] && !h.pipeEvent && h.expired)
      && (a.Pass? || a.Check? ==> h.todo != [] && s.thread.batch == h.todo)
      && (a.Remove? ==> h.at == Some(s.thread.node) && (h.untouched ==> (s.thread.seen <==> s.thread.node in s.removed)))
  {
    hide Runs, Inv, After;
    InitInv();
    RunAgrees(INIT, NOTHING, run, s);
  }
}
