/** The life of an AIO service under every interleaving of callers, the poller thread and handler
    threads (src/kernel/ioservice_linux.cc, and handle_aio_result, io_bind, io_unbind and
    shutdown_io_service in src/kernel/communicator.cc).  One action is one critical section, one
    atomic operation or one callback. */
module AioProtocol {
  import opened Common

  type Session = nat

  /** The registration of event_fd in the poller. */
  datatype Reg = Registered | Deleting | Gone

  datatype State = State(
    ref: int,
    open: bool,               // event_fd >= 0
    sessions: set<Session>,   // m_session_list
    kernel: set<Session>,     // submitted requests whose event has not been fetched
    fetched: set<Session>,    // in the poller thread, between io_getevents and incref
    queued: set<Session>,     // success results between aio_finish and the lock in handle_aio_result
    calling: set<Session>,    // handlers about to call session->handle
    dropping: nat,            // threads about to call decref
    draining: bool,           // a thread has counted down to zero and is in the loop of decref
    reg: Reg,
    ending: bool,             // an ERROR or STOPPED result is on its way to handle_stop
    unbinding: bool,          // io_unbind has been called
    owed: bool,               // a thread is about to call shutdown_io_service
    bound: bool,              // the reference of io_bind has not been given up
    accepted: set<Session>,
    handled: multiset<Session>,
    unbound: nat,             // calls of handle_unbound
    late: nat)                // calls of handle_stop after handle_unbound

  /** io_bind */
  const BOUND := State(1, true, {}, {}, {}, {}, {}, 0, false, Registered, false, false, false, true, {}, multiset{}, 0, 0)

  datatype Action =
    | Request(session: Session)
    | Event(session: Session)
    | Incref(session: Session)
    | TakeResult(session: Session)
    | Handle(session: Session)
    | PollerEnds
    | HandleStop
    | Unbind
    | Deleted
    | Shutdown
    | Decref
    | Fetch(session: Session)
    | Tell

  ghost predicate Enabled(s: State, a: Action) {
    match a
    case Request(x) => s.open && x !in s.accepted
    case Event(x) => x in s.kernel && !s.reg.Gone? && s.fetched == {}
    case Incref(x) => x in s.fetched
    case TakeResult(x) => x in s.queued
    case Handle(x) => x in s.calling
    case PollerEnds => s.reg.Registered? && s.fetched == {}
    case HandleStop => s.ending
    // its caller calls io_unbind once
    case Unbind => !s.unbinding
    case Deleted => s.reg.Deleting? && s.fetched == {}
    case Shutdown => s.owed
    case Decref => s.dropping > 0
    // the loop of decref: list_delete and session->handle, with no other thread left that could
    // tell the two apart
    case Fetch(x) => s.draining && x in s.kernel
    case Tell => s.draining && s.sessions == {}
  }

  ghost function Apply(s: State, a: Action): State
    requires Enabled(s, a)
  {
    match a
    case Request(x) => s.(kernel := s.kernel + {x}, sessions := s.sessions + {x}, accepted := s.accepted + {x})
    case Event(x) => s.(kernel := s.kernel - {x}, fetched := s.fetched + {x})
    case Incref(x) => s.(fetched := s.fetched - {x}, queued := s.queued + {x}, ref := s.ref + 1)
    case TakeResult(x) => s.(queued := s.queued - {x}, sessions := s.sessions - {x}, calling := s.calling + {x})
    case Handle(x) => s.(calling := s.calling - {x}, handled := s.handled + multiset{x}, dropping := s.dropping + 1)
    case PollerEnds => s.(reg := Gone, ending := true)
    case HandleStop => s.(ending := false, late := if s.unbound > 0 then s.late + 1 else s.late)
    case Unbind =>
      if s.reg.Registered? then s.(unbinding := true, reg := Deleting) else s.(unbinding := true, owed := true)
    case Deleted => s.(reg := Gone, owed := true)
    case Shutdown => s.(owed := false, open := false, bound := false, dropping := s.dropping + 1)
    case Decref => s.(dropping := s.dropping - 1, ref := s.ref - 1, draining := s.ref == 1)
    case Fetch(x) => s.(kernel := s.kernel - {x}, sessions := s.sessions - {x}, handled := s.handled + multiset{x})
    case Tell => s.(draining := false, unbound := s.unbound + 1)
  }

  ghost predicate Runs(s: State, run: seq<Action>, t: State)
    decreases |run|
  {
    if run == [] then s == t
    else Enabled(s, run[0]) && Runs(Apply(s, run[0]), run[1..], t)
  }

  lemma {:induction false} Chain(s: State, r1: seq<Action>, m: State, r2: seq<Action>, t: State)
    requires Runs(s, r1, m) && Runs(m, r2, t)
    ensures Runs(s, r1 + r2, t)
    decreases |r1|
  {
    hide Enabled, Apply;
    if r1 == [] {
      assert r1 + r2 == r2;
    } else {
      Chain(Apply(s, r1[0]), r1[1..], m, r2, t);
      assert (r1 + r2)[1..] == r1[1..] + r2;
    }
  }

  lemma OneStep(s: State, a: Action)
    requires Enabled(s, a)
    ensures Runs(s, [a], Apply(s, a))
  {
    assert Runs(Apply(s, a), [a][1..], Apply(s, a));
  }

  lemma Extend(s: State, run: seq<Action>, m: State, a: Action)
    requires Runs(s, run, m) && Enabled(m, a)
    ensures Runs(s, run + [a], Apply(m, a))
  {
    hide Enabled, Apply;
    OneStep(m, a);
    Chain(s, run, m, [a], Apply(m, a));
  }

  // ---------- the invariant ----------

  /** The bind reference and everything in flight. */
  ghost function Owners(s: State): nat {
    One(s.bound) + |s.queued| + |s.calling| + s.dropping
  }

  ghost function Places(s: State, x: Session): nat {
    One(x in s.kernel) + One(x in s.fetched) + One(x in s.queued) + One(x in s.calling) + s.handled[x]
  }

  ghost predicate RefCounts(s: State) {
    && s.ref == Owners(s)
    && (s.draining ==> s.ref == 0)
    && s.unbound == One(s.ref == 0 && !s.draining)
    && (s.unbound == 1 ==> s.sessions == {})
  }

  ghost predicate SessionsKept(s: State) {
    && s.sessions == s.kernel + s.fetched + s.queued
    && forall x :: Places(s, x) == One(x in s.accepted)
  }

  ghost predicate Binding(s: State) {
    && s.open == s.bound
    && s.bound == (!s.unbinding || s.reg.Deleting? || s.owed)
    && (s.unbinding ==> !s.reg.Registered?) && (!s.unbinding ==> !s.reg.Deleting?)
    && (s.owed ==> s.unbinding && s.reg.Gone?)
    && (s.ending ==> s.reg.Gone?)
    && (s.fetched != {} ==> !s.reg.Gone?)
  }

  ghost predicate Inv(s: State) {
    RefCounts(s) && SessionsKept(s) && Binding(s)
  }

  lemma OnePlace(s: State, x: Session)
    requires Inv(s)
    ensures (x in s.fetched ==> x !in s.queued) && (x in s.queued ==> x !in s.calling) && (x !in s.accepted ==> x !in s.kernel)
  {
    hide RefCounts, Binding;
    assert Places(s, x) == One(x in s.accepted);
  }

  lemma Cardinal(q: set<Session>, x: Session)
    ensures x in q ==> |q - {x}| == |q| - 1
    ensures x !in q ==> |q + {x}| == |q| + 1
  {
    if x in q {
      assert q == (q - {x}) + {x};
    }
  }

  /** Steps that move a session from one place to the next. */
  ghost predicate MovesSession(a: Action) {
    a.Request? || a.Event? || a.Incref? || a.TakeResult? || a.Handle? || a.Fetch?
  }

  /** How many sessions there are in each place after such a step. */
  lemma SessionMoves(s: State, a: Action)
    requires Inv(s) && Enabled(s, a) && MovesSession(a)
    ensures var t := Apply(s, a);
      && t.dropping == s.dropping + One(a.Handle?)
      && |t.kernel| == |s.kernel| + One(a.Request?) - One(a.Event?) - One(a.Fetch?)
      && |t.fetched| == |s.fetched| + One(a.Event?) - One(a.Incref?)
      && |t.queued| == |s.queued| + One(a.Incref?) - One(a.TakeResult?)
      && |t.calling| == |s.calling| + One(a.TakeResult?) - One(a.Handle?)
  {
    hide Inv;
    var x := a.session;
    OnePlace(s, x);
    Cardinal(s.kernel, x);
    Cardinal(s.fetched, x);
    Cardinal(s.queued, x);
    Cardinal(s.calling, x);
  }

  lemma SameOwner(s: State, a: Action)
    requires Enabled(s, a) && MovesSession(a)
    ensures var t := Apply(s, a);
      && t.bound == s.bound && t.draining == s.draining && t.unbound == s.unbound && t.ref == s.ref + One(a.Incref?)
      && (!a.Request? ==> t.sessions <= s.sessions)
  {
    match a
    case Request(x) =>
    case Event(x) =>
    case Incref(x) =>
    case TakeResult(x) =>
    case Handle(x) =>
    case Fetch(x) =>
  }

  lemma OpenBound(s: State, a: Action)
    requires Binding(s) && Enabled(s, a) && a.Request?
    ensures s.bound
  {
  }

  lemma RefCountsKept(s: State, a: Action)
    requires Inv(s) && Enabled(s, a)
    ensures RefCounts(Apply(s, a))
  {
    hide SessionsKept;
    if MovesSession(a) {
      MoveKeepsRef(s, a);
    } else {
      OtherKeepsRef(s, a);
    }
  }

  lemma MoveKeepsRef(s: State, a: Action)
    requires Inv(s) && Enabled(s, a) && MovesSession(a)
    ensures RefCounts(Apply(s, a))
  {
    hide SessionsKept, Apply, Enabled;
    SessionMoves(s, a);
    SameOwner(s, a);
    if a.Incref? { FetchedBound(s, a); }
    if a.Request? { OpenBound(s, a); }
  }

  lemma FetchedBound(s: State, a: Action)
    requires Binding(s) && Enabled(s, a) && a.Incref?
    ensures s.bound
  {
  }

  lemma OtherKeepsRef(s: State, a: Action)
    requires RefCounts(s) && Binding(s) && Enabled(s, a) && !MovesSession(a)
    ensures RefCounts(Apply(s, a))
  {
    if a.Decref? && s.ref == 1 { NoOwners(Apply(s, a)); }
  }

  lemma NoOwners(s: State)
    requires Owners(s) == 0
    ensures s.queued == {} && s.calling == {} && s.dropping == 0 && !s.bound
  {
  }

  /** In the loop of decref only the kernel still has sessions. */
  lemma NobodyLeft(s: State)
    requires Inv(s) && s.draining
    ensures s.sessions == s.kernel
  {
    hide Places;
    NoOwners(s);
  }

  /** ... and when it has no more, every accepted session has been called. */
  lemma AllDone(s: State)
    requires Inv(s) && s.draining && s.sessions == {}
    ensures s.handled == multiset(s.accepted) && s.unbound == 0
  {
    AllHandled(s);
  }

  lemma SessionsKeptOn(s: State, a: Action)
    requires Inv(s) && Enabled(s, a)
    ensures SessionsKept(Apply(s, a))
  {
    hide RefCounts, Owners;
    var t := Apply(s, a);
    forall x ensures Places(t, x) == One(x in t.accepted) { assert Places(s, x) == One(x in s.accepted); }
    match a
    case TakeResult(x) => assert Places(s, x) == One(x in s.accepted);
    case Fetch(x) => assert Places(s, x) == One(x in s.accepted);
    case _ =>
  }

  lemma StepKeeps(s: State, a: Action)
    requires Inv(s) && Enabled(s, a)
    ensures Inv(Apply(s, a))
  {
    hide RefCounts, SessionsKept;
    RefCountsKept(s, a);
    SessionsKeptOn(s, a);
  }

  lemma {:induction false} RunKeeps(s: State, run: seq<Action>, t: State)
    requires Inv(s) && Runs(s, run, t)
    ensures Inv(t)
    decreases |run|
  {
    hide Inv, Enabled, Apply;
    if run != [] {
      StepKeeps(s, run[0]);
      RunKeeps(Apply(s, run[0]), run[1..], t);
    }
  }

  lemma BoundInv() ensures Inv(BOUND) {}

  // ---------- what holds of every run ----------

  /** Over every run: no session is called twice or without having been accepted; handle_unbound
      runs at most once, and only after every accepted session was called, with no reference left;
      and as long as it has not run, the bind reference and what is in flight are counted. */
  lemma HandledOnce(run: seq<Action>, s: State, x: Session)
    requires Runs(BOUND, run, s)
    ensures s.handled[x] <= One(x in s.accepted)
    ensures s.unbound <= 1 && s.ref == Owners(s)
    ensures s.unbound == 1 ==> s.handled == multiset(s.accepted) && Owners(s) == 0 && !s.open
  {
    hide Runs, Enabled, Apply;
    BoundInv();
    RunKeeps(BOUND, run, s);
    assert Places(s, x) == One(x in s.accepted);
    if s.unbound == 1 { AllHandled(s); }
  }

  /** The poller thread never takes a reference to a service whose count has come to zero. */
  lemma IncrefAlive(run: seq<Action>, s: State, x: Session)
    requires Runs(BOUND, run, s) && Enabled(s, Incref(x))
    ensures s.ref > 0 && s.unbound == 0 && !s.draining
  {
    hide Runs, Apply, SessionsKept;
    BoundInv();
    RunKeeps(BOUND, run, s);
  }

  lemma AllHandled(s: State)
    requires Inv(s) && s.ref == 0 && s.sessions == {}
    ensures s.handled == multiset(s.accepted)
  {
    NoOwners(s);
    forall x ensures s.handled[x] == multiset(s.accepted)[x] { assert Places(s, x) == One(x in s.accepted); }
  }

  // ---------- what is still to be done ----------

  /** What is still to be done, when nobody submits another request. */
  ghost function ToDo(s: State): nat {
    6 * |s.kernel| + 5 * |s.fetched| + 4 * |s.queued| + 3 * |s.calling| + 2 * s.dropping + Stages(s)
  }

  ghost function Stages(s: State): nat {
    12 * One(!s.unbinding) + 6 * One(s.reg.Deleting?) + 2 * One(s.reg.Registered?) + One(s.ending) + 4 * One(s.owed)
    + One(s.draining) + One(s.unbound == 0)
  }

  lemma SameStages(s: State, a: Action)
    requires Enabled(s, a) && MovesSession(a)
    ensures Stages(Apply(s, a)) == Stages(s)
  {
  }

  lemma StageMoves(s: State, a: Action)
    requires Inv(s) && Enabled(s, a) && !MovesSession(a)
    ensures ToDo(Apply(s, a)) < ToDo(s)
  {
    hide SessionsKept;
  }

  /** Every step but a new request leaves less to do. */
  lemma ToDoFalls(s: State, a: Action)
    requires Inv(s) && Enabled(s, a)
    ensures ToDo(Apply(s, a)) < ToDo(s) + 7 * One(a.Request?)
  {
    hide Inv, Enabled, Apply, Stages;
    if MovesSession(a) {
      SessionMoves(s, a);
      SameStages(s, a);
    } else {
      StageMoves(s, a);
    }
  }

  // ---------- every service can be unbound ----------

  ghost function Pick(q: set<Session>): (x: Session)
    requires q != {}
    ensures x in q
  {
    var x :| x in q; x
  }

  /** A next step towards handle_unbound: handlers first.  None of them is HandleStop. */
  ghost function Onward(s: State): Action {
    if s.dropping > 0 then Decref
    else if s.calling != {} then Handle(Pick(s.calling))
    else if s.queued != {} then TakeResult(Pick(s.queued))
    else if s.fetched != {} then Incref(Pick(s.fetched))
    else OnwardIdle(s)
  }

  ghost function OnwardIdle(s: State): Action {
    if s.draining then if s.kernel != {} then Fetch(Pick(s.kernel)) else Tell
    else if s.owed then Shutdown
    else if s.reg.Deleting? then Deleted
    else Unbind
  }

  ghost predicate Busy(s: State) {
    s.dropping > 0 || s.calling != {} || s.queued != {} || s.fetched != {}
  }

  /** A step that goes on with what there is, and leaves the terminal result alone. */
  ghost predicate Proceeds(s: State, a: Action) {
    Enabled(s, a) && !a.Request?
    && var t := Apply(s, a);
       t.accepted == s.accepted && t.ending == s.ending && t.late == s.late
  }

  lemma BusyProceeds(s: State)
    requires Busy(s)
    ensures Proceeds(s, Onward(s))
  {
    hide OnwardIdle, Pick;
    match Onward(s)
    case Decref =>
    case Handle(x) =>
    case TakeResult(x) =>
    case Incref(x) =>
  }

  /** Nothing is in flight, and handle_unbound has not run: somebody has to unbind, or is at it. */
  lemma IdleFacts(s: State)
    requires Inv(s) && s.unbound == 0 && !Busy(s)
    ensures s.draining || s.owed || s.reg.Deleting? || !s.unbinding
    ensures s.draining ==> s.sessions == s.kernel
  {
    if s.draining { NobodyLeft(s); }
  }

  lemma IdleProceeds(s: State)
    requires s.unbound == 0 && s.fetched == {} && (s.draining || s.owed || s.reg.Deleting? || !s.unbinding)
    requires s.draining ==> s.sessions == s.kernel
    ensures Proceeds(s, OnwardIdle(s))
  {
    hide Pick;
    match OnwardIdle(s)
    case Fetch(x) =>
    case Tell =>
    case Shutdown =>
    case Deleted =>
    case Unbind =>
  }

  lemma OnwardProceeds(s: State)
    requires Inv(s) && s.unbound == 0
    ensures Proceeds(s, Onward(s))
  {
    hide Apply, Enabled, Inv, OnwardIdle, Proceeds;
    if Busy(s) {
      BusyProceeds(s);
    } else {
      IdleFacts(s);
      IdleProceeds(s);
    }
  }

  lemma {:induction false} RunOut(s: State) returns (run: seq<Action>, t: State)
    requires Inv(s)
    ensures Runs(s, run, t) && Inv(t) && t.unbound == 1 && t.accepted == s.accepted && t.ending == s.ending && t.late == s.late
    decreases ToDo(s)
  {
    hide Apply, Enabled, ToDo, Onward, SessionsKept, Binding;
    if s.unbound == 1 {
      run, t := [], s;
    } else {
      var a := Onward(s);
      OnwardProceeds(s);
      StepKeeps(s, a);
      ToDoFalls(s, a);
      run, t := RunOut(Apply(s, a));
      assert ([a] + run)[1..] == run;
      run := [a] + run;
    }
  }

  /** From every reachable state the service can come to handle_unbound, and then every session it
      accepted has been handled exactly once. */
  lemma UnboundReached(pre: seq<Action>, s: State) returns (run: seq<Action>, t: State)
    requires Runs(BOUND, pre, s)
    ensures Runs(s, run, t) && t.unbound == 1 && t.accepted == s.accepted && t.handled == multiset(t.accepted)
  {
    hide Runs, Enabled, Apply;
    BoundInv();
    RunKeeps(BOUND, pre, s);
    run, t := RunOut(s);
    AllHandled(t);
  }

  // ---------- and it comes to that, whoever is scheduled ----------

  ghost function Requests(run: seq<Action>): nat {
    if run == [] then 0 else One(run[0].Request?) + Requests(run[1..])
  }

  /** So every run is finite but for new requests, of which there are none after the shutdown. */
  lemma {:induction false} RunsAreBounded(s: State, run: seq<Action>, t: State)
    requires Inv(s) && Runs(s, run, t)
    ensures |run| + ToDo(t) <= ToDo(s) + 7 * Requests(run)
    ensures !s.open ==> Requests(run) == 0
    decreases |run|
  {
    hide Inv, Enabled, Apply, ToDo;
    if run != [] {
      StepKeeps(s, run[0]);
      ToDoFalls(s, run[0]);
      if !s.open { StaysClosed(s, run[0]); }
      RunsAreBounded(Apply(s, run[0]), run[1..], t);
    }
  }

  lemma StaysClosed(s: State, a: Action)
    requires Enabled(s, a) && !s.open
    ensures !Apply(s, a).open && !a.Request?
  {
    match a
    case Shutdown =>
    case _ =>
  }

  /** And wherever a run has come to, if nothing is left to be done but new requests, then
      handle_unbound has run, and every accepted session has been handled exactly once. */
  lemma QuietIsUnbound(run: seq<Action>, s: State)
    requires Runs(BOUND, run, s) && forall a :: Enabled(s, a) ==> a.Request?
    ensures s.unbound == 1 && s.handled == multiset(s.accepted)
  {
    hide Runs, Enabled, Apply, Proceeds, Onward;
    BoundInv();
    RunKeeps(BOUND, run, s);
    if s.unbound == 0 { NotQuiet(s); }
    UnboundOnce(s);
    AllHandled(s);
  }

  lemma NotQuiet(s: State)
    requires Inv(s) && s.unbound == 0
    ensures exists a :: Enabled(s, a) && !a.Request?
  {
    hide Inv, Enabled, Apply, Onward;
    OnwardProceeds(s);
    assert Enabled(s, Onward(s));
  }

  lemma UnboundOnce(s: State)
    requires Inv(s) && s.unbound > 0
    ensures s.unbound == 1 && s.ref == 0 && s.sessions == {}
  {
    hide SessionsKept, Binding;
  }

  // ---------- handle_stop after handle_unbound ----------

  lemma StaysQuiet(s: State, a: Action)
    requires Binding(s) && s.unbinding && !s.ending && Enabled(s, a)
    ensures Apply(s, a).unbinding && !Apply(s, a).ending && Apply(s, a).late == s.late
  {
  }

  /** Once io_unbind has been called with no ERROR or STOPPED result on its way, none will be. */
  lemma {:induction false} NeverLate(s: State, run: seq<Action>, t: State)
    requires Inv(s) && s.unbinding && !s.ending && Runs(s, run, t)
    ensures t.late == s.late && !t.ending
    decreases |run|
  {
    hide RefCounts, SessionsKept, Enabled, Apply;
    if run != [] {
      StepKeeps(s, run[0]);
      StaysQuiet(s, run[0]);
      NeverLate(Apply(s, run[0]), run[1..], t);
    }
  }

  /** The handler of an ERROR or STOPPED result calls service->handle_stop without holding a
      reference (communicator.cc:925-928).  It can do so after handle_unbound if and only if
      io_unbind is called while that result is still on its way. */
  lemma UnbindExactly(s: State)
    requires Inv(s) && Enabled(s, Unbind)
    ensures (exists run, t :: Runs(Apply(s, Unbind), run, t) && t.late > s.late) <==> s.ending
  {
    hide Runs, RefCounts, SessionsKept;
    var u := Apply(s, Unbind);
    StepKeeps(s, Unbind);
    if s.ending {
      var run, m := RunOut(u);
      var t := Apply(m, HandleStop);
      Extend(u, run, m, HandleStop);
    } else {
      forall run, t | Runs(u, run, t) ensures t.late == s.late { NeverLate(u, run, t); }
    }
  }

  /** Such a run exists: the registration ends by itself, and io_unbind overtakes its result. */
  lemma LateReachable() returns (run: seq<Action>, t: State)
    ensures Runs(BOUND, run, t) && t.late > 0
  {
    hide Inv;
    BoundInv();
    var m := Apply(BOUND, PollerEnds);
    StepKeeps(BOUND, PollerEnds);
    OneStep(BOUND, PollerEnds);
    UnbindExactly(m);
    var more, u :| Runs(Apply(m, Unbind), more, u) && u.late > m.late;
    Extend(BOUND, [PollerEnds], m, Unbind);
    Chain(BOUND, [PollerEnds] + [Unbind], Apply(m, Unbind), more, u);
    run, t := [PollerEnds] + [Unbind] + more, u;
  }

  /** Over every run: if handle_stop has come after handle_unbound, io_unbind was called at some
      step before which the result was on its way. */
  lemma {:induction false} LateOnlyThen(s: State, run: seq<Action>, t: State) returns (i: nat, m: State)
    requires Inv(s) && !s.unbinding && s.late == 0 && Runs(s, run, t) && t.late > 0
    ensures i < |run| && run[i].Unbind? && Runs(s, run[..i], m) && m.ending
    decreases |run|
  {
    hide RefCounts, SessionsKept, Enabled, Apply;
    assert run != [];
    StepKeeps(s, run[0]);
    if run[0].Unbind? {
      i, m := 0, s;
      Unbinding(s);
      if !s.ending { NeverLate(Apply(s, run[0]), run[1..], t); }
    } else {
      BeforeUnbind(s, run[0]);
      i, m := LateOnlyThen(Apply(s, run[0]), run[1..], t);
      assert run[..i + 1] == [run[0]] + run[1..][..i];
      assert run[..i + 1][1..] == run[1..][..i];
      i := i + 1;
    }
  }

  lemma Unbinding(s: State)
    requires Enabled(s, Unbind)
    ensures Apply(s, Unbind).unbinding && Apply(s, Unbind).ending == s.ending && Apply(s, Unbind).late == s.late
  {
  }

  lemma BeforeUnbind(s: State, a: Action)
    requires Inv(s) && !s.unbinding && s.late == 0 && Enabled(s, a) && !a.Unbind?
    ensures !Apply(s, a).unbinding && Apply(s, a).late == 0
  {
    hide SessionsKept;
  }
}
