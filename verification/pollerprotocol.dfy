/** Who owns a registered node, under every interleaving of caller threads, the poller thread
    and the thread in poller_stop (src/kernel/poller.cc).

    One action is one critical section of the poller's mutex, one system call, or one
    callback.  Everything that lies between two actions can be interleaved. */
module PollerProtocol {
  import opened Common

  /** One malloc'ed __poller_node; `fd` is negative for a timer. */
  datatype Node = Node(id: nat, fd: int)

  /** Where the poller thread stands. */
  datatype Thread =
    | Arming
      // about to set the timer
    | Waiting
      // in epoll_wait
    | Visiting(batch: seq<Node>, pipeEvent: bool)
      // in the loop over the events, those of `batch` still to come
    | Checking(node: Node, seen: bool, batch: seq<Node>, pipeEvent: bool)
      // a handler wants to end `node` and has read `removed` as `seen`
    | Reporting(hand: seq<Node>, next: Thread)
      // owes the callback for each node of `hand`, then goes on as `next`
    | Expiring
      // about to take the lock in __poller_handle_timeout
    | Exited

  /** Where poller_stop stands. */
  datatype Stop = Idle | Asked | Joined

  datatype State = State(
    accepted: set<Node>,
    live: set<Node>,
    index: map<int, Node>,
    removed: set<Node>,
    pipe: seq<Option<Node>>,
    thread: Thread,
    held: set<Node>,
    delivered: multiset<Node>,
    stopped: bool,
    stop: Stop)

  const INIT := State({}, {}, map[], {}, [], Exited, {}, multiset{}, true, Idle)

  datatype Action =
    | Add(node: Node)
    | Del(fd: int)
    | Mod(node: Node)
    | AddTimer(node: Node)
    | DelTimer(node: Node)
    | Report(node: Node)
    | Start
    | Ask
    | Join
    | Drain
    | Arm
    | Wait(batch: seq<Node>, pipeEvent: bool)
    | Pass
    | Check
    | Remove
    | EndBatch
    | ReadPipe(count: nat)
    | CallBack
    | Resume
    | Expire(due: seq<Node>)

  // ---------- views of a state ----------

  /** The nodes in the pipe; a null pointer in it means stop. */
  function Piped(pipe: seq<Option<Node>>): seq<Node> {
    if pipe == [] then []
    else
      var last := pipe[|pipe| - 1];
      Piped(pipe[..|pipe| - 1]) + if last.Some? then [last.value] else []
  }

  ghost function Hand(t: Thread): seq<Node> {
    if t.Reporting? then t.hand + Hand(t.next) else []
  }

  /** The nodes of the current batch that a handler still has to look at. */
  ghost function Batch(t: Thread): seq<Node> {
    match t
    case Visiting(b, _) => b
    case Checking(n, _, b, _) => [n] + b
    case Reporting(_, next) => Batch(next)
    case _ => []
  }

  ghost predicate Leaving(t: Thread) {
    t.Exited? || (t.Reporting? && Leaving(t.next))
  }

  function Fds(nodes: set<Node>): set<int> {
    set n | n in nodes :: n.fd
  }

  function Timers(nodes: set<Node>): set<Node> {
    set n | n in nodes && n.fd < 0
  }

  // ---------- the steps ----------

  predicate Enabled(s: State, a: Action) {
    match a
    case Add(n) => n !in s.accepted && n.fd >= 0
    case Del(fd) => true
    case Mod(n) => n !in s.accepted && n.fd >= 0
    case AddTimer(n) => n !in s.accepted && n.fd < 0
    // a timer may be deleted until its callback has run
    case DelTimer(n) => n in s.accepted && n.fd < 0 && n !in s.delivered
    case Report(n) => n in s.held
    case Start => s.stopped && s.stop.Idle?
    case Ask => !s.stopped && s.stop.Idle?
    case Join => s.stop.Asked? && s.thread.Exited?
    case Drain => s.stop.Joined?
    case Arm => s.thread.Arming?
    // epoll_wait reports registered nodes, each descriptor at most once
    case Wait(b, _) => s.thread.Waiting? && NoDup(b) && forall n | n in b :: n in s.live && n.fd >= 0
    case Pass => s.thread.Visiting? && s.thread.batch != []
    case Check => s.thread.Visiting? && s.thread.batch != []
    case Remove => s.thread.Checking?
    case EndBatch => s.thread.Visiting? && s.thread.batch == [] && !s.thread.pipeEvent
    case ReadPipe(k) => s.thread.Visiting? && s.thread.batch == [] && s.thread.pipeEvent && k <= |s.pipe|
    case CallBack => s.thread.Reporting? && s.thread.hand != []
    case Resume => s.thread.Reporting? && s.thread.hand == []
    case Expire(due) => s.thread.Expiring? && NoDup(due) && forall n | n in due :: n in s.live
  }

  /** Taking a node out of the index and its container. */
  function Unlink(s: State, n: Node): State {
    s.(live := s.live - {n}, index := s.index - {n.fd})
  }

  /** What del and mod do with the node they displace: the pipe while the poller runs, the
      caller's own callback otherwise. */
  function Displace(s: State, n: Node): State {
    if s.stopped then s.(held := s.held + {n})
    else s.(removed := s.removed + {n}, pipe := s.pipe + [Some(n)])
  }

  function Register(s: State, n: Node): State {
    s.(accepted := s.accepted + {n}, live := s.live + {n}, index := s.index[n.fd := n])
  }

  /** The rest of __poller_remove_node once the value of `removed` is known. */
  function EndNode(s: State, removed: bool): State
    requires s.thread.Checking?
  {
    var rest := Visiting(s.thread.batch, s.thread.pipeEvent);
    if removed then s.(thread := rest)
    else Unlink(s, s.thread.node).(thread := Reporting([s.thread.node], rest))
  }

  /** `oneSection` says that `removed` is read inside the critical section. */
  function Apply(s: State, a: Action, oneSection: bool): State
    requires Enabled(s, a)
  {
    match a
    case Add(n) => if n.fd in s.index then s else Register(s, n)
    case Del(fd) => if fd in s.index then Displace(Unlink(s, s.index[fd]), s.index[fd]) else s
    case Mod(n) =>
      if n.fd in s.index then Register(Displace(Unlink(s, s.index[n.fd]), s.index[n.fd]), n) else s
    case AddTimer(n) => s.(accepted := s.accepted + {n}, live := s.live + {n})
    case DelTimer(n) =>
      if n in s.removed then s
      else s.(removed := s.removed + {n}, live := s.live - {n}, held := s.held + {n})
    case Report(n) => s.(held := s.held - {n}, delivered := s.delivered + multiset{n})
    case Start => s.(stopped := false, thread := Arming)
    case Ask => s.(pipe := s.pipe + [None], stop := Asked)
    case Join => s.(stopped := true, stop := Joined)
    case Drain =>
      s.(held := s.held + Elems(Piped(s.pipe)) + s.live, pipe := [], live := {}, index := s.index - Fds(s.live),
         removed := s.removed + Timers(s.live), stop := Idle)
    case Arm => s.(thread := Waiting)
    case Wait(b, p) => s.(thread := Visiting(b, p))
    case Pass => s.(thread := Visiting(s.thread.batch[1..], s.thread.pipeEvent))
    case Check =>
      var n := s.thread.batch[0];
      s.(thread := Checking(n, n in s.removed, s.thread.batch[1..], s.thread.pipeEvent))
    case Remove => EndNode(s, if oneSection then s.thread.node in s.removed else s.thread.seen)
    case EndBatch => s.(thread := Expiring)
    case ReadPipe(k) =>
      s.(pipe := s.pipe[k..], thread := Reporting(Piped(s.pipe[..k]), if None in s.pipe[..k] then Exited else Expiring))
    case CallBack =>
      s.(thread := Reporting(s.thread.hand[1..], s.thread.next), delivered := s.delivered + multiset{s.thread.hand[0]})
    case Resume => s.(thread := s.thread.next)
    case Expire(due) =>
      s.(live := s.live - Elems(due), index := s.index - Fds(Elems(due)),
         removed := s.removed + Timers(Elems(due)), thread := Reporting(due, Arming))
  }

  ghost predicate Runs(s: State, run: seq<Action>, oneSection: bool, t: State)
    decreases |run|
  {
    if run == [] then s == t
    else Enabled(s, run[0]) && Runs(Apply(s, run[0], oneSection), run[1..], oneSection, t)
  }

  // ---------- the invariant ----------

  /** How many owners a node has: a container, the pipe, the hands of the poller thread, the
      hands of a caller; each callback it has been given to counts as well. */
  ghost function Places(s: State, n: Node): nat {
    One(n in s.live) + Count(Piped(s.pipe), n) + Count(Hand(s.thread), n) + One(n in s.held) + s.delivered[n]
  }

  /** Every accepted node is in exactly one place, every other node in none. */
  ghost predicate Conserved(s: State) {
    forall n :: Places(s, n) == One(n in s.accepted)
  }

  ghost predicate IndexAgrees(s: State) {
    && (forall fd :: fd in s.index ==> s.index[fd] in s.live && s.index[fd].fd == fd && fd >= 0)
    && (forall n :: n in s.live && n.fd >= 0 ==> n.fd in s.index && s.index[n.fd] == n)
  }

  ghost predicate FlagsAgree(s: State) {
    && s.removed <= s.accepted
    && (forall n :: n in s.live ==> n !in s.removed)
    && (forall n :: n in Piped(s.pipe) ==> n in s.removed && n.fd >= 0)
    && (forall n :: n in s.accepted && n.fd < 0 && n !in s.live ==> n in s.removed)
    && (s.thread.Checking? && s.thread.seen ==> s.thread.node in s.removed)
  }

  ghost predicate BatchOwned(s: State) {
    NoDup(Batch(s.thread)) && forall n :: n in Batch(s.thread) ==> n.fd >= 0 && (n in s.live || n in Piped(s.pipe))
  }

  ghost predicate Control(s: State) {
    && (s.stopped ==> s.thread.Exited?)
    && (s.stopped && s.stop.Idle? ==> s.pipe == [])
    && (s.stop.Joined? ==> s.stopped)
    && (s.stop.Asked? ==> !s.stopped && (None in s.pipe || Leaving(s.thread)))
    && (Leaving(s.thread) && !s.stopped ==> s.stop.Asked?)
    && (None in s.pipe ==> !s.stop.Idle?)
    && (s.thread.Reporting? ==> !s.thread.next.Reporting? && !s.thread.next.Checking? && !s.thread.next.Waiting?)
  }

  ghost predicate Inv(s: State) {
    Conserved(s) && IndexAgrees(s) && FlagsAgree(s) && BatchOwned(s) && Control(s)
  }

  // ---------- bookkeeping ----------

  lemma {:induction false} PipedSum(a: seq<Option<Node>>, b: seq<Option<Node>>)
    ensures Piped(a + b) == Piped(a) + Piped(b)
    decreases |b|
  {
    if b == [] {
      assert a + b == a;
    } else {
      PipedSum(a, b[..|b| - 1]);
      assert (a + b)[..|a + b| - 1] == a + b[..|b| - 1];
    }
  }

  lemma {:induction false} PipedSplit(p: seq<Option<Node>>, k: nat)
    requires k <= |p|
    ensures Piped(p) == Piped(p[..k]) + Piped(p[k..])
  {
    hide Piped;
    var a, b := p[..k], p[k..];
    assert a + b == p;
    PipedSum(a, b);
  }

  lemma PipedPush(p: seq<Option<Node>>, x: Option<Node>)
    ensures Piped(p + [x]) == Piped(p) + if x.Some? then [x.value] else []
  {
    assert (p + [x])[..|p|] == p;
  }

  lemma CountIn(q: seq<Node>, n: Node)
    ensures Count(q, n) > 0 <==> n in q
    ensures Count([n], n) == 1
    ensures forall m :: m != n ==> Count([m], n) == 0
  {
  }

  lemma {:induction false} CountDistinct(q: seq<Node>, n: Node)
    requires NoDup(q)
    ensures Count(q, n) == One(n in q)
  {
    if q != [] {
      CountDistinct(q[1..], n);
      CountSum([q[0]], q[1..], n);
      assert q == [q[0]] + q[1..];
      assert q[0] !in q[1..];
    }
  }

  /** A live node is owned by its container alone. */
  lemma Alone(s: State, n: Node)
    requires Inv(s) && n in s.live
    ensures n in s.accepted && n !in Piped(s.pipe) && n !in Hand(s.thread) && n !in s.held && n !in s.delivered
  {
    hide Piped, Hand, IndexAgrees, FlagsAgree, BatchOwned, Control;
    assert Places(s, n) == One(n in s.accepted);
    CountIn(Piped(s.pipe), n);
    CountIn(Hand(s.thread), n);
  }

  lemma Unknown(s: State, n: Node)
    requires Inv(s) && n !in s.accepted
    ensures n !in s.live && n !in Piped(s.pipe) && n !in Hand(s.thread) && n !in s.held && n !in s.delivered
  {
    hide Piped, Hand, IndexAgrees, FlagsAgree, BatchOwned, Control;
    assert Places(s, n) == One(n in s.accepted);
    CountIn(Piped(s.pipe), n);
    CountIn(Hand(s.thread), n);
  }

  lemma ThenOf(h: seq<Node>, t: Thread)
    ensures Batch(Reporting(h, t)) == Batch(t) && (Leaving(Reporting(h, t)) <==> Leaving(t))
    ensures !t.Visiting? && !t.Checking? && !t.Reporting? ==> Batch(t) == []
    ensures t.Visiting? ==> Batch(t) == t.batch
  {
  }

  lemma HandOf(t: Thread)
    ensures t.Reporting? && !t.next.Reporting? ==> Hand(t) == t.hand
    ensures !t.Reporting? ==> Hand(t) == []
  {
  }

  lemma SamePlaces(s: State, t: State)
    requires Conserved(s) && s.accepted == t.accepted && s.live == t.live && Piped(s.pipe) == Piped(t.pipe)
    requires Hand(s.thread) == Hand(t.thread) && s.held == t.held && s.delivered == t.delivered
    ensures Conserved(t)
  {
    forall n ensures Places(t, n) == One(n in t.accepted) { assert Places(s, n) == Places(t, n); }
  }

  // ---------- each step keeps the invariant ----------

  lemma DisplaceConserves(s: State, n: Node)
    requires Inv(s) && n in s.live
    ensures Conserved(Displace(Unlink(s, n), n))
  {
    hide Piped, Hand, IndexAgrees, FlagsAgree, BatchOwned, Control;
    Alone(s, n);
    PipedPush(s.pipe, Some(n));
    var t := Displace(Unlink(s, n), n);
    forall m ensures Places(t, m) == One(m in t.accepted) {
      assert Places(s, m) == One(m in s.accepted);
      CountSum(Piped(s.pipe), [n], m);
      CountIn([n], m);
    }
  }

  lemma DisplaceKeeps(s: State, n: Node)
    requires Inv(s) && n in s.live && n.fd >= 0
    ensures Inv(Displace(Unlink(s, n), n))
  {
    hide Places;
    DisplaceConserves(s, n);
    Alone(s, n);
    PipedPush(s.pipe, Some(n));
  }

  lemma RegisterConserves(s: State, n: Node, t: State)
    requires Inv(s) && n !in s.accepted
    requires t == s.(accepted := t.accepted, live := t.live, index := t.index)
    requires t.accepted == s.accepted + {n} && t.live == s.live + {n}
    ensures Conserved(t)
  {
    hide Piped, Hand, IndexAgrees, FlagsAgree, BatchOwned, Control;
    Unknown(s, n);
    forall m ensures Places(t, m) == One(m in t.accepted) {
      assert Places(s, m) == One(m in s.accepted);
      CountIn(Piped(s.pipe), m);
      CountIn(Hand(s.thread), m);
    }
  }

  lemma RegisterKeeps(s: State, n: Node)
    requires Inv(s) && n !in s.accepted && n.fd >= 0 && n.fd !in s.index
    ensures Inv(Register(s, n))
  {
    hide Places;
    RegisterConserves(s, n, Register(s, n));
    Unknown(s, n);
  }

  lemma ModKeeps(s: State, n: Node)
    requires Inv(s) && n !in s.accepted && n.fd in s.index
    ensures Inv(Register(Displace(Unlink(s, s.index[n.fd]), s.index[n.fd]), n))
  {
    hide Places;
    DisplaceKeeps(s, s.index[n.fd]);
    RegisterKeeps(Displace(Unlink(s, s.index[n.fd]), s.index[n.fd]), n);
  }

  lemma AddTimerKeeps(s: State, n: Node)
    requires Inv(s) && n !in s.accepted && n.fd < 0
    ensures Inv(Apply(s, AddTimer(n), true))
  {
    hide Places;
    RegisterConserves(s, n, Apply(s, AddTimer(n), true));
    Unknown(s, n);
  }

  lemma DelTimerConserves(s: State, n: Node)
    requires Inv(s) && Enabled(s, DelTimer(n))
    ensures Conserved(Apply(s, DelTimer(n), true))
  {
    hide Piped, Hand, IndexAgrees, BatchOwned, Control;
    if n in s.live { Alone(s, n); }
    var t := Apply(s, DelTimer(n), true);
    forall m ensures Places(t, m) == One(m in t.accepted) {
      assert Places(s, m) == One(m in s.accepted);
    }
  }

  lemma DelTimerKeeps(s: State, n: Node)
    requires Inv(s) && Enabled(s, DelTimer(n))
    ensures Inv(Apply(s, DelTimer(n), true))
  {
    hide Places;
    DelTimerConserves(s, n);
    if n in s.live { Alone(s, n); }
  }

  lemma ReportConserves(s: State, n: Node)
    requires Inv(s) && n in s.held
    ensures Conserved(Apply(s, Report(n), true))
  {
    hide Piped, Hand, IndexAgrees, FlagsAgree, BatchOwned, Control;
    var t := Apply(s, Report(n), true);
    forall m ensures Places(t, m) == One(m in t.accepted) {
      assert Places(s, m) == One(m in s.accepted);
    }
  }

  lemma ReportKeeps(s: State, n: Node)
    requires Inv(s) && n in s.held
    ensures Inv(Apply(s, Report(n), true))
  {
    hide Places;
    ReportConserves(s, n);
  }

  lemma AskKeeps(s: State)
    requires Inv(s) && Enabled(s, Ask)
    ensures Inv(Apply(s, Ask, true))
  {
    hide Conserved, Piped, Batch, Hand, Leaving;
    PipedPush(s.pipe, None);
    SamePlaces(s, Apply(s, Ask, true));
  }

  lemma DrainConserves(s: State)
    requires Inv(s) && s.stop.Joined?
    ensures Conserved(Apply(s, Drain, true))
  {
    hide Piped, Hand, IndexAgrees, FlagsAgree, BatchOwned, Control;
    var t := Apply(s, Drain, true);
    forall m ensures Places(t, m) == One(m in t.accepted) {
      assert Places(s, m) == One(m in s.accepted);
      CountIn(Piped(s.pipe), m);
      CountIn([], m);
      PipedEmpty();
    }
  }

  lemma DrainKeeps(s: State)
    requires Inv(s) && s.stop.Joined?
    ensures Inv(Apply(s, Drain, true))
    ensures Apply(s, Drain, true).index == map[]
  {
    hide Places, Piped;
    DrainConserves(s);
    forall n | n in s.live ensures n in s.accepted { Alone(s, n); }
    assert Piped([]) == [] by { PipedEmpty(); }
    forall fd | fd in s.index ensures fd in Fds(s.live) { assert s.index[fd] in s.live; }
  }

  lemma PipedEmpty() ensures Piped([]) == [] {}

  lemma NoDupHead(n: Node, b: seq<Node>)
    requires NoDup([n] + b)
    ensures NoDup(b) && n !in b
  {
    var s := [n] + b;
    assert forall i :: 0 <= i < |b| ==> s[i + 1] == b[i] && s[0] != s[i + 1];
  }

  lemma PassKeeps(s: State)
    requires Inv(s) && Enabled(s, Pass)
    ensures Inv(Apply(s, Pass, true))
  {
    hide Conserved;
    SamePlaces(s, Apply(s, Pass, true));
  }

  lemma CheckKeeps(s: State)
    requires Inv(s) && Enabled(s, Check)
    ensures Inv(Apply(s, Check, true))
  {
    hide Conserved;
    SamePlaces(s, Apply(s, Check, true));
    assert Batch(s.thread) == Batch(Apply(s, Check, true).thread);
  }

  lemma RemoveConserves(s: State)
    requires Inv(s) && s.thread.Checking?
    ensures Conserved(Apply(s, Remove, true))
  {
    hide Piped, Hand, IndexAgrees, Control;
    HandOf(s.thread);
    var t := Apply(s, Remove, true);
    forall m ensures Places(t, m) == One(m in t.accepted) {
      assert Places(s, m) == One(m in s.accepted);
      CountIn([s.thread.node], m);
      HandOf(t.thread);
    }
  }

  lemma RemoveKeeps(s: State)
    requires Inv(s) && s.thread.Checking?
    ensures Inv(Apply(s, Remove, true))
  {
    hide Places, Piped;
    RemoveConserves(s);
    NoDupHead(s.thread.node, s.thread.batch);
    assert s.thread.node in Batch(s.thread);
    assert forall m | m in s.thread.batch :: m in Batch(s.thread);
    if s.thread.node in s.live { Alone(s, s.thread.node); }
    ThenOf([s.thread.node], Visiting(s.thread.batch, s.thread.pipeEvent));
  }

  lemma ReadPipeConserves(s: State, k: nat)
    requires Inv(s) && Enabled(s, ReadPipe(k))
    ensures Conserved(Apply(s, ReadPipe(k), true))
  {
    hide Piped, Hand, IndexAgrees, FlagsAgree, BatchOwned, Control;
    HandOf(s.thread);
    PipedSplit(s.pipe, k);
    var t := Apply(s, ReadPipe(k), true);
    forall m ensures Places(t, m) == One(m in t.accepted) {
      assert Places(s, m) == One(m in s.accepted);
      CountSum(Piped(s.pipe[..k]), Piped(s.pipe[k..]), m);
      HandOf(t.thread);
    }
  }

  lemma ReadPipeKeeps(s: State, k: nat)
    requires Inv(s) && Enabled(s, ReadPipe(k))
    ensures Inv(Apply(s, ReadPipe(k), true))
  {
    hide Places, Piped;
    ReadPipeConserves(s, k);
    PipedSplit(s.pipe, k);
    assert s.pipe == s.pipe[..k] + s.pipe[k..];
    ThenOf(Piped(s.pipe[..k]), if None in s.pipe[..k] then Exited else Expiring);
  }

  lemma CallBackConserves(s: State)
    requires Inv(s) && Enabled(s, CallBack)
    ensures Conserved(Apply(s, CallBack, true))
  {
    hide Piped, IndexAgrees, FlagsAgree, BatchOwned, Control;
    var h := s.thread.hand;
    assert h + Hand(s.thread.next) == [h[0]] + (h[1..] + Hand(s.thread.next));
    var t := Apply(s, CallBack, true);
    forall m ensures Places(t, m) == One(m in t.accepted) {
      assert Places(s, m) == One(m in s.accepted);
      CountSum([h[0]], h[1..] + Hand(s.thread.next), m);
      CountIn([h[0]], m);
    }
  }

  lemma CallBackKeeps(s: State)
    requires Inv(s) && Enabled(s, CallBack)
    ensures Inv(Apply(s, CallBack, true))
  {
    hide Places, Piped;
    CallBackConserves(s);
  }

  lemma ExpireConserves(s: State, due: seq<Node>)
    requires Inv(s) && Enabled(s, Expire(due))
    ensures Conserved(Apply(s, Expire(due), true))
  {
    hide Piped, Hand, IndexAgrees, FlagsAgree, BatchOwned, Control;
    HandOf(s.thread);
    var t := Apply(s, Expire(due), true);
    forall m ensures Places(t, m) == One(m in t.accepted) {
      assert Places(s, m) == One(m in s.accepted);
      CountDistinct(due, m);
      HandOf(t.thread);
    }
  }

  lemma ExpireKeeps(s: State, due: seq<Node>)
    requires Inv(s) && Enabled(s, Expire(due))
    ensures Inv(Apply(s, Expire(due), true))
  {
    hide Places, Piped;
    ExpireConserves(s, due);
    forall n | n in s.live ensures n in s.accepted { Alone(s, n); }
    ThenOf(due, Arming);
  }

  lemma PlainKeeps(s: State, a: Action)
    requires Inv(s) && Enabled(s, a) && (a.Start? || a.Join? || a.Arm? || a.Wait? || a.EndBatch? || a.Resume?)
    ensures Inv(Apply(s, a, true))
  {
    hide Conserved, Piped, IndexAgrees, FlagsAgree;
    SamePlaces(s, Apply(s, a, true));
    PlainFlags(s, a);
  }

  lemma PlainFlags(s: State, a: Action)
    requires Inv(s) && Enabled(s, a) && (a.Start? || a.Join? || a.Arm? || a.Wait? || a.EndBatch? || a.Resume?)
    ensures FlagsAgree(Apply(s, a, true)) && IndexAgrees(Apply(s, a, true))
  {
    hide Conserved, Piped, BatchOwned;
  }

  lemma StepKeeps(s: State, a: Action)
    requires Inv(s) && Enabled(s, a)
    ensures Inv(Apply(s, a, true))
  {
    hide Conserved, FlagsAgree, BatchOwned, Control;
    match a
    case Add(n) => if n.fd !in s.index { RegisterKeeps(s, n); }
    case Del(fd) => if fd in s.index { DisplaceKeeps(s, s.index[fd]); }
    case Mod(n) => if n.fd in s.index { ModKeeps(s, n); }
    case AddTimer(n) => AddTimerKeeps(s, n);
    case DelTimer(n) => DelTimerKeeps(s, n);
    case Report(n) => ReportKeeps(s, n);
    case Ask => AskKeeps(s);
    case Drain => DrainKeeps(s);
    case Pass => PassKeeps(s);
    case Check => CheckKeeps(s);
    case Remove => RemoveKeeps(s);
    case ReadPipe(k) => ReadPipeKeeps(s, k);
    case CallBack => CallBackKeeps(s);
    case Expire(due) => ExpireKeeps(s, due);
    case _ => PlainKeeps(s, a);
  }

  // ---------- what holds of every run ----------

  lemma {:induction false} RunKeeps(s: State, run: seq<Action>, t: State)
    requires Inv(s) && Runs(s, run, true, t)
    ensures Inv(t)
    decreases |run|
  {
    hide Inv, Enabled, Apply;
    if run != [] {
      StepKeeps(s, run[0]);
      RunKeeps(Apply(s, run[0], true), run[1..], t);
    }
  }

  lemma InitInv() ensures Inv(INIT) {
    assert forall n :: Places(INIT, n) == 0;
  }

  /** No node is ever called back twice, or without having been accepted; and while it is
      owned by a container or by the pipe it has not been called back at all. */
  lemma AtMostOnce(run: seq<Action>, t: State, n: Node)
    requires Runs(INIT, run, true, t)
    ensures t.delivered[n] <= One(n in t.accepted)
    ensures n in t.live || n in Piped(t.pipe) || n in t.held ==> t.delivered[n] == 0
  {
    hide Apply, Enabled, Piped, Hand;
    InitInv();
    RunKeeps(INIT, run, t);
    assert Places(t, n) == One(n in t.accepted);
    CountIn(Piped(t.pipe), n);
  }

  /** While the poller thread goes through one batch, no node it has still to visit has been
      given to a callback or is on its way to one, whatever callers do meanwhile. */
  lemma BatchSafe(run: seq<Action>, t: State, n: Node)
    requires Runs(INIT, run, true, t) && n in Batch(t.thread)
    ensures n !in t.delivered && n !in t.held && n !in Hand(t.thread)
    ensures n in t.live <==> n !in t.removed
  {
    hide Apply, Enabled, Piped, Hand;
    InitInv();
    RunKeeps(INIT, run, t);
    assert Places(t, n) == One(n in t.accepted);
    CountIn(Piped(t.pipe), n);
    CountIn(Hand(t.thread), n);
  }

  /** Once the containers, the pipe and all hands are empty, every node ever accepted has had
      exactly one callback. */
  lemma ExactlyOnce(run: seq<Action>, t: State)
    requires Runs(INIT, run, true, t)
    requires t.live == {} && Piped(t.pipe) == [] && Hand(t.thread) == [] && t.held == {}
    ensures t.delivered == multiset(t.accepted)
  {
    hide Apply, Enabled, Piped, Hand;
    InitInv();
    RunKeeps(INIT, run, t);
    forall n ensures t.delivered[n] == multiset(t.accepted)[n] {
      assert Places(t, n) == One(n in t.accepted);
      CountIn([], n);
    }
  }

  // ---------- poller_stop can always finish ----------

  lemma {:induction false} Chain(s: State, r1: seq<Action>, m: State, r2: seq<Action>, t: State)
    requires Runs(s, r1, true, m) && Runs(m, r2, true, t)
    ensures Runs(s, r1 + r2, true, t)
    decreases |r1|
  {
    hide Enabled, Apply;
    if r1 == [] {
      assert r1 + r2 == r2;
    } else {
      Chain(Apply(s, r1[0], true), r1[1..], m, r2, t);
      assert (r1 + r2)[1..] == r1[1..] + r2;
    }
  }

  lemma OneStep(s: State, a: Action)
    requires Enabled(s, a)
    ensures Runs(s, [a], true, Apply(s, a, true))
  {
    assert Runs(Apply(s, a, true), [a][1..], true, Apply(s, a, true));
  }

  ghost function Stage(t: Thread): nat {
    match t
    case Exited => 0
    case Visiting(_, p) => if p then 1 else 5
    case Checking(_, _, _, p) => if p then 1 else 5
    case Waiting => 2
    case Arming => 3
    case Expiring => 4
    case Reporting(_, next) => Stage(next)
  }

  ghost function Size(t: Thread): nat {
    match t
    case Visiting(b, _) => 3 * |b|
    case Checking(_, _, b, _) => 3 * |b| + 3
    case Reporting(h, next) => 1 + |h| + Size(next)
    case _ => 0
  }

  /** What the poller thread does next when nothing else happens. */
  ghost function Onward(s: State): Action
    requires !s.thread.Exited?
  {
    match s.thread
    case Arming => Arm
    case Waiting => Wait([], true)
    case Visiting(b, p) => if b != [] then Pass else if p then ReadPipe(|s.pipe|) else EndBatch
    case Checking(_, _, _, _) => Remove
    case Reporting(h, _) => if h != [] then CallBack else Resume
    case Expiring => Expire([])
  }

  lemma OnwardFacts(s: State)
    requires Inv(s) && s.stop.Asked? && !s.thread.Exited?
    ensures Enabled(s, Onward(s))
    ensures var t := Apply(s, Onward(s), true);
      t.accepted == s.accepted && t.stop == s.stop
      && (Stage(t.thread) < Stage(s.thread) || (Stage(t.thread) == Stage(s.thread) && Size(t.thread) < Size(s.thread)))
  {
    hide Conserved, IndexAgrees, FlagsAgree, BatchOwned, Piped, Hand, Batch;
    assert s.pipe[..|s.pipe|] == s.pipe;
  }

  lemma {:induction false} Settle(s: State) returns (run: seq<Action>, t: State)
    requires Inv(s) && s.stop.Asked?
    ensures Runs(s, run, true, t) && Inv(t) && t.stop.Asked? && t.thread.Exited? && t.accepted == s.accepted
    decreases Stage(s.thread), Size(s.thread)
  {
    hide Inv, Enabled, Apply;
    if s.thread.Exited? {
      run, t := [], s;
    } else {
      var a := Onward(s);
      OnwardFacts(s);
      StepKeeps(s, a);
      OneStep(s, a);
      run, t := Settle(Apply(s, a, true));
      Chain(s, [a], Apply(s, a, true), run, t);
      run := [a] + run;
    }
  }

  lemma {:induction false} ReportAll(s: State) returns (run: seq<Action>, t: State)
    requires Inv(s)
    ensures Runs(s, run, true, t) && t == s.(held := {}, delivered := t.delivered)
    decreases |s.held|
  {
    hide Inv;
    if s.held == {} {
      run, t := [], s;
    } else {
      var n :| n in s.held;
      StepKeeps(s, Report(n));
      run, t := ReportAll(Apply(s, Report(n), true));
      OneStep(s, Report(n));
      Chain(s, [Report(n)], Apply(s, Report(n), true), run, t);
      run := [Report(n)] + run;
    }
  }

  lemma Take(s: State, a: Action, r: seq<Action>, t: State) returns (run: seq<Action>)
    requires Inv(s) && Enabled(s, a) && Runs(Apply(s, a, true), r, true, t)
    ensures Runs(s, run, true, t)
  {
    OneStep(s, a);
    Chain(s, [a], Apply(s, a, true), r, t);
    run := [a] + r;
  }

  /** poller_stop from a state in which the poller thread has been told to leave, or need not
      be told any more. */
  lemma StopFrom(s: State) returns (run: seq<Action>, t: State)
    requires Inv(s) && !s.stop.Idle?
    ensures Runs(s, run, true, t) && t.accepted == s.accepted
    ensures t.live == {} && t.pipe == [] && t.held == {} && t.thread.Exited?
  {
    hide Inv;
    if s.stop.Asked? {
      var r1, m := Settle(s);
      StepKeeps(m, Join);
      var j := Apply(m, Join, true);
      StepKeeps(j, Drain);
      JoinedExited(j);
      var r2;
      r2, t := ReportAll(Apply(j, Drain, true));
      r2 := Take(j, Drain, r2, t);
      r2 := Take(m, Join, r2, t);
      Chain(s, r1, m, r2, t);
      run := r1 + r2;
    } else {
      JoinedExited(s);
      StepKeeps(s, Drain);
      run, t := ReportAll(Apply(s, Drain, true));
      run := Take(s, Drain, run, t);
    }
  }

  lemma JoinedExited(s: State)
    requires Inv(s) && s.stop.Joined?
    ensures s.thread.Exited?
  {
  }

  /** From every reachable state poller_stop can run to its end, and it leaves every accepted
      node with exactly one callback. */
  lemma StopCompletes(pre: seq<Action>, s: State) returns (run: seq<Action>, t: State)
    requires Runs(INIT, pre, true, s)
    ensures Runs(s, run, true, t) && t.accepted == s.accepted && t.delivered == multiset(t.accepted)
  {
    hide Inv;
    InitInv();
    RunKeeps(INIT, pre, s);
    if s.stop.Idle? && s.stopped {
      var a := Apply(s, Start, true);
      StepKeeps(s, Start);
      StepKeeps(a, Ask);
      run, t := StopFrom(Apply(a, Ask, true));
      run := Take(a, Ask, run, t);
      run := Take(s, Start, run, t);
    } else if s.stop.Idle? {
      StepKeeps(s, Ask);
      run, t := StopFrom(Apply(s, Ask, true));
      run := Take(s, Ask, run, t);
    } else {
      run, t := StopFrom(s);
    }
    Chain(INIT, pre, s, run, t);
    ExactlyOnce(pre + run, t);
  }

  // ---------- `removed` read before the lock ----------

  /** __poller_remove_node as written reads `removed` before it takes the lock.  With the value
      read then, its critical section keeps the invariant if and only if that value is still
      right, that is, no del or mod of this node came in between. */
  lemma StaleReadExact(s: State)
    requires Inv(s) && s.thread.Checking?
    ensures Inv(Apply(s, Remove, false)) <==> s.thread.seen == (s.thread.node in s.removed)
  {
    hide Piped;
    var n := s.thread.node;
    assert n in Batch(s.thread);
    if s.thread.seen == (n in s.removed) {
      RemoveKeeps(s);
      assert Apply(s, Remove, false) == Apply(s, Remove, true);
    } else {
      var t := Apply(s, Remove, false);
      assert Places(s, n) == One(n in s.accepted);
      CountIn(Piped(s.pipe), n);
      CountIn([n], n);
      HandOf(s.thread);
      HandOf(t.thread);
      assert Places(t, n) == 2;
    }
  }

  /** In the run, no node is deleted or replaced between its handler's read of `removed` and
      the critical section that acts on it. */
  ghost predicate FreshReads(s: State, run: seq<Action>)
    decreases |run|
  {
    run == []
    || (Enabled(s, run[0])
        && (run[0].Remove? ==> s.thread.seen == (s.thread.node in s.removed))
        && FreshReads(Apply(s, run[0], false), run[1..]))
  }

  /** Such a run of the code as written is a run of the intended one, so all of the above holds
      of it. */
  lemma {:induction false} FreshRunIsSafe(s: State, run: seq<Action>, t: State)
    requires Inv(s) && Runs(s, run, false, t) && FreshReads(s, run)
    ensures Runs(s, run, true, t) && Inv(t)
    decreases |run|
  {
    hide Inv;
    if run != [] {
      assert Apply(s, run[0], false) == Apply(s, run[0], true);
      StepKeeps(s, run[0]);
      FreshRunIsSafe(Apply(s, run[0], true), run[1..], t);
    }
  }

  lemma StaleStep(s: State, a: Action, m: State, r: seq<Action>, t: State)
    requires Enabled(s, a) && Apply(s, a, false) == m && Runs(m, r, false, t)
    ensures Runs(s, [a] + r, false, t)
  {
    hide Enabled, Apply;
    assert ([a] + r)[1..] == r;
  }

  /** The state in which the handler of the only node has read `removed` as false and a caller
      has deleted the node since. */
  ghost function DeletedMeanwhile(n: Node): State {
    State({n}, {}, map[], {n}, [Some(n)], Checking(n, false, [], true), {}, multiset{}, false, Idle)
  }

  lemma ReachDeletedMeanwhile(n: Node, r: seq<Action>, t: State) returns (run: seq<Action>)
    requires n.fd >= 0 && Runs(DeletedMeanwhile(n), r, false, t)
    ensures Runs(INIT, run, false, t)
  {
    hide Runs;
    var s0 := INIT.(stopped := false, thread := Arming);
    var s1 := INIT.(stopped := false, thread := Waiting);
    var s2 := s1.(accepted := {n}, live := {n}, index := map[n.fd := n]);
    var s3 := s2.(thread := Visiting([n], true));
    var s4 := s2.(thread := Checking(n, false, [], true));
    assert [n][1..] == [];
    StaleStep(s4, Del(n.fd), DeletedMeanwhile(n), r, t);
    StaleStep(s3, Check, s4, [Del(n.fd)] + r, t);
    run := [Check] + ([Del(n.fd)] + r);
    StaleStep(s2, Wait([n], true), s3, run, t);
    run := [Wait([n], true)] + run;
    StaleStep(s1, Add(n), s2, run, t);
    run := [Add(n)] + run;
    StaleStep(s0, Arm, s1, run, t);
    run := [Arm] + run;
    StaleStep(INIT, Start, s0, run, t);
    run := [Start] + run;
  }

  /** ... and then the handler has gone on with what it read, and has called back. */
  ghost function CalledBackOnce(n: Node): State {
    State({n}, {}, map[], {n}, [Some(n)], Visiting([], true), {}, multiset{n}, false, Idle)
  }

  lemma ReachCalledBackOnce(n: Node, r: seq<Action>, t: State) returns (run: seq<Action>)
    requires n.fd >= 0 && Runs(CalledBackOnce(n), r, false, t)
    ensures Runs(INIT, run, false, t)
  {
    hide Runs;
    var s1 := DeletedMeanwhile(n).(thread := Reporting([n], Visiting([], true)));
    var s2 := CalledBackOnce(n).(thread := Reporting([], Visiting([], true)));
    assert [n][1..] == [];
    StaleStep(s2, Resume, CalledBackOnce(n), r, t);
    StaleStep(s1, CallBack, s2, [Resume] + r, t);
    run := [CallBack] + ([Resume] + r);
    StaleStep(DeletedMeanwhile(n), Remove, s1, run, t);
    run := ReachDeletedMeanwhile(n, [Remove] + run, t);
  }

  /** A run of the code as written in which one node gets two callbacks: its handler reads
      `removed`, a caller deletes the node, the handler goes on with the old value. */
  lemma DoubleCallback(n: Node) returns (run: seq<Action>, t: State)
    requires n.fd >= 0
    ensures Runs(INIT, run, false, t) && n in t.accepted && t.delivered[n] == 2
  {
    hide Runs;
    var s1 := CalledBackOnce(n);
    var s2 := s1.(pipe := [], thread := Reporting([n], Expiring));
    t := s2.(thread := Reporting([], Expiring), delivered := multiset{n} + multiset{n});
    PipedPush([], Some(n));
    assert s1.pipe[..1] == [] + [Some(n)] && [n][1..] == [];
    RunsEmpty(t);
    StaleStep(s2, CallBack, t, [], t);
    StaleStep(s1, ReadPipe(1), s2, [CallBack] + [], t);
    run := ReachCalledBackOnce(n, [ReadPipe(1)] + ([CallBack] + []), t);
  }

  lemma RunsEmpty(t: State) ensures Runs(t, [], false, t) {}

  // ---------- every stale read can end in two callbacks ----------

  /** The poller thread goes on by itself to read the pipe: no handler is in the middle. */
  ghost predicate Calm(t: Thread) {
    match t
    case Reporting(_, next) => !next.Reporting? && Calm(next)
    case Checking(_, _, _, _) => false
    case Exited => false
    case _ => true
  }

  lemma Prepend(s: State, a: Action, run: seq<Action>, t: State)
    requires Enabled(s, a) && !a.Remove? && Runs(Apply(s, a, false), run, false, t) && FreshReads(Apply(s, a, false), run)
    ensures Runs(s, [a] + run, false, t) && FreshReads(s, [a] + run)
  {
    hide Enabled, Apply;
    assert ([a] + run)[1..] == run;
  }

  lemma CountFirst(q: seq<Node>, n: Node)
    requires q != []
    ensures Count(q, n) == One(q[0] == n) + Count(q[1..], n)
  {
    assert q == [q[0]] + q[1..];
    CountSum([q[0]], q[1..], n);
    CountIn([], q[0]);
    if q[0] != n { CountIn([q[0]], n); } else { CountIn(q, n); }
    assert multiset([q[0]])[n] == One(q[0] == n);
  }

  /** The poller thread calls back what it has in its hands. */
  lemma {:induction false} CallBacks(s: State, n: Node) returns (run: seq<Action>, t: State)
    requires s.thread.Reporting?
    ensures Runs(s, run, false, t) && FreshReads(s, run) && t.delivered[n] == s.delivered[n] + Count(s.thread.hand, n)
    decreases |if s.thread.Reporting? then s.thread.hand else []|
  {
    var h := s.thread.hand;
    if h == [] {
      run, t := [], s;
    } else {
      var u := s.(thread := Reporting(h[1..], s.thread.next), delivered := s.delivered + multiset{h[0]});
      assert Apply(s, CallBack, false) == u;
      CountFirst(h, n);
      run, t := CallBacks(u, n);
      Prepend(s, CallBack, run, t);
      run := [CallBack] + run;
    }
  }

  lemma ReadsPipe(s: State)
    requires Calm(s.thread) && Onward(s).ReadPipe?
    ensures Enabled(s, Onward(s)) && Hand(s.thread) == []
    ensures var t := Apply(s, Onward(s), false); t.thread.Reporting? && t.thread.hand == Piped(s.pipe) && t.delivered == s.delivered
  {
    hide Piped;
    assert s.pipe[..|s.pipe|] == s.pipe;
  }

  lemma GoesOn(s: State, n: Node)
    requires Calm(s.thread) && !Onward(s).ReadPipe?
    ensures Enabled(s, Onward(s)) && !Onward(s).Remove?
    ensures var t := Apply(s, Onward(s), false);
      && Calm(t.thread) && t.pipe == s.pipe
      && t.delivered[n] + Count(Hand(t.thread), n) == s.delivered[n] + Count(Hand(s.thread), n)
      && (Stage(t.thread) < Stage(s.thread) || (Stage(t.thread) == Stage(s.thread) && Size(t.thread) < Size(s.thread)))
  {
    hide Piped, Count;
    if s.thread.Reporting? && s.thread.hand != [] {
      var h := s.thread.hand;
      CountFirst(h, n);
      assert Hand(s.thread.next) == [];
      assert h + [] == h && h[1..] + [] == h[1..];
    } else if s.thread.Reporting? {
      assert Hand(s.thread) == [] + Hand(s.thread.next) == Hand(s.thread.next);
    } else {
      assert Hand(Reporting([], Arming)) == [] + Hand(Arming) == [];
    }
  }

  /** Whatever is in the hands of the poller thread and whatever is in the pipe gets a callback. */
  lemma {:induction false} Delivers(s: State, n: Node) returns (run: seq<Action>, t: State)
    requires Calm(s.thread)
    ensures Runs(s, run, false, t) && FreshReads(s, run)
    ensures t.delivered[n] == s.delivered[n] + Count(Hand(s.thread), n) + Count(Piped(s.pipe), n)
    decreases Stage(s.thread), Size(s.thread)
  {
    hide Apply, Enabled, Piped, Hand, Stage, Size, Calm, Count, FreshReads, Runs;
    NotExited(s.thread);
    var a := Onward(s);
    if a.ReadPipe? {
      ReadsPipe(s);
      CountNothing(n);
      run, t := CallBacks(Apply(s, a, false), n);
    } else {
      GoesOn(s, n);
      run, t := Delivers(Apply(s, a, false), n);
    }
    Prepend(s, a, run, t);
    run := [a] + run;
  }

  lemma NotExited(t: Thread)
    requires Calm(t)
    ensures !t.Exited?
  {
  }

  lemma CountNothing(n: Node) ensures Count([], n) == 0 {}

  /** The node of a stale Remove: in the pipe, and now with the poller thread as well. */
  lemma StaleFacts(s: State)
    requires Inv(s) && s.thread.Checking? && s.thread.seen != (s.thread.node in s.removed)
    ensures var n, u := s.thread.node, Apply(s, Remove, false);
      && Calm(u.thread) && Count(Hand(u.thread), n) == 1 && Count(Piped(u.pipe), n) == 1 && u.delivered[n] == 0
  {
    hide Piped, IndexAgrees;
    var n, u := s.thread.node, Apply(s, Remove, false);
    assert n in Batch(s.thread);
    assert Places(s, n) == One(n in s.accepted);
    CountIn(Piped(s.pipe), n);
    CountIn([n], n);
    HandOf(u.thread);
  }

  /** Over whole runs: in any reachable state, the handler that goes on with what it has read can
      bring about a second callback of its node, though all other reads be fresh, if and only if
      what it has read is no longer right. */
  lemma StaleTwiceExactly(pre: seq<Action>, s: State)
    requires Runs(INIT, pre, true, s) && s.thread.Checking?
    ensures (exists run, t :: Runs(Apply(s, Remove, false), run, false, t) && FreshReads(Apply(s, Remove, false), run)
                              && t.delivered[s.thread.node] > 1)
      <==> s.thread.seen != (s.thread.node in s.removed)
  {
    hide Inv, Runs, FreshReads, Places, Piped, Hand;
    InitInv();
    RunKeeps(INIT, pre, s);
    var n, u := s.thread.node, Apply(s, Remove, false);
    if s.thread.seen != (n in s.removed) {
      StaleFacts(s);
      var run, t := Delivers(u, n);
    } else {
      StaleReadExact(s);
      forall run, t | Runs(u, run, false, t) && FreshReads(u, run) ensures t.delivered[n] <= 1 {
        FreshRunIsSafe(u, run, t);
        DeliveredOnce(t, n);
      }
    }
  }

  lemma DeliveredOnce(s: State, n: Node)
    requires Inv(s)
    ensures s.delivered[n] <= 1
  {
    hide Piped, Hand, IndexAgrees, FlagsAgree, BatchOwned, Control;
    assert Places(s, n) == One(n in s.accepted);
  }
}
