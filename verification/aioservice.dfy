/** The object that an AIO service is (src/kernel/ioservice_linux.cc, and handle_aio_result, io_bind,
    io_unbind and shutdown_io_service in src/kernel/communicator.cc): a count, a descriptor, a list
    of sessions and the result that each of them carries.

    The first part cuts the functions of the source into critical sections, atomic operations and
    callbacks and shows that each of them is a step of AioProtocol, in any order that the steps
    allow, which is any interleaving of callers, the poller thread and handler threads.  The second
    part puts the functions together as one thread runs them when no other comes in between. */
module AioService {
  import opened Common
  import opened AioProtocol

  /** A call session->handle(state, error). */
  datatype Call = Call(session: Session, success: bool, error: int)

  /** What a handler thread gets for the event_fd. */
  datatype Result = Finished(session: Session) | Removed | Failed | Stopped

  ghost function Told(calls: seq<Call>): multiset<Session> {
    if calls == [] then multiset{} else Told(calls[..|calls| - 1]) + multiset{calls[|calls| - 1].session}
  }

  lemma ToldMore(calls: seq<Call>, c: Call)
    ensures Told(calls + [c]) == Told(calls) + multiset{c.session}
  {
    assert (calls + [c])[..|calls|] == calls;
  }

  /** Each call says what the event of its session said. */
  ghost predicate SaysResult(c: Call, events: map<Session, int>) {
    && c.session in events
    && (c.success <==> events[c.session] >= 0) && c.error == if c.success then 0 else -events[c.session]
  }

  /** list_del */
  function Cut(l: seq<Session>, i: nat): seq<Session>
    requires i < |l|
  {
    l[..i] + l[i + 1..]
  }

  ghost predicate CutOf(l: seq<Session>, x: Session, r: seq<Session>) {
    exists i: nat :: i < |l| && l[i] == x && r == Cut(l, i)
  }

  lemma CutAt(l: seq<Session>, i: nat, k: nat)
    requires i < |l| && k < |l| - 1
    ensures Cut(l, i)[k] == l[if k < i then k else k + 1]
  {
  }

  lemma CutNoDup(l: seq<Session>, i: nat)
    requires NoDup(l) && i < |l|
    ensures NoDup(Cut(l, i))
  {
    hide NoDup, Cut;
    var r := Cut(l, i);
    assert |r| == |l| - 1 by { CutSize(l, i); }
    forall a, b | 0 <= a < b < |r| ensures r[a] != r[b] {
      CutAt(l, i, a);
      CutAt(l, i, b);
      Differ(l, if a < i then a else a + 1, if b < i then b else b + 1);
    }
    ByIndex(r);
  }

  lemma CutSize(l: seq<Session>, i: nat)
    requires i < |l|
    ensures |Cut(l, i)| == |l| - 1
  {
  }

  lemma ByIndex(l: seq<Session>)
    requires forall a, b :: 0 <= a < b < |l| ==> l[a] != l[b]
    ensures NoDup(l)
  {
  }

  lemma CutElems(l: seq<Session>, i: nat)
    requires NoDup(l) && i < |l|
    ensures Elems(Cut(l, i)) == Elems(l) - {l[i]} && l[i] in Elems(l)
  {
    hide NoDup;
    forall x | x in Elems(l) - {l[i]} ensures x in Cut(l, i) {
      var k :| 0 <= k < |l| && l[k] == x;
      CutAt(l, i, if k < i then k else k - 1);
    }
    forall x | x in Cut(l, i) ensures x in Elems(l) - {l[i]} {
      var k :| 0 <= k < |l| - 1 && Cut(l, i)[k] == x;
      CutAt(l, i, k);
      Differ(l, i, if k < i then k else k + 1);
    }
  }

  /** What decref does at zero: the event of each session that is left, and the news. */
  ghost predicate DrainRun(more: seq<Action>, left: seq<Session>) {
    && |more| == |left| + 1 && more[|left|] == Tell
    && forall i :: 0 <= i < |left| ==> more[i].Fetch? && more[i].session in left
  }

  /** All that decref does to a service with that count and those sessions. */
  ghost predicate DecrefRun(more: seq<Action>, ref: int, left: seq<Session>) {
    more != [] && more[0] == Decref && if ref == 1 then DrainRun(more[1..], left) else |more| == 1
  }

  /** What the handler of a result does, with the count and the list it finds. */
  ghost predicate ResultRun(r: Result, more: seq<Action>, ref: int, list: seq<Session>) {
    match r
    case Finished(x) =>
      |more| >= 2 && more[0] == TakeResult(x) && more[1] == Handle(x)
      && exists left :: CutOf(list, x, left) && DecrefRun(more[2..], ref, left)
    case Removed => |more| >= 2 && more[0] == Deleted && more[1] == Shutdown && DecrefRun(more[2..], ref, list)
    case Failed => more == [HandleStop]
    case Stopped => more == [HandleStop]
  }

  /** The result is at a handler thread. */
  ghost predicate Arrives(s: State, r: Result) {
    match r
    case Finished(x) => Enabled(s, TakeResult(x))
    case Removed => Enabled(s, Deleted)
    case Failed => Enabled(s, HandleStop)
    case Stopped => Enabled(s, HandleStop)
  }

  // ---------- what the object shows of the protocol ----------

  /** The fields of a service, with what io_getevents has reported and the calls of
      session->handle. */
  datatype Fields = Fields(ref: int, fd: int, list: seq<Session>, res: map<Session, int>,
                           events: map<Session, int>, calls: seq<Call>)

  ghost predicate Shows(s: State, f: Fields) {
    s.ref == f.ref && s.open == (f.fd >= 0) && NoDup(f.list) && s.sessions == Elems(f.list)
  }

  /** A session that is on its way to a handler carries the result of its event. */
  ghost predicate Results(s: State, f: Fields) {
    && f.events.Keys <= s.accepted && f.events.Keys !! s.kernel
    && s.fetched + s.queued + s.calling <= f.events.Keys
    && (forall x | x in s.queued + s.calling :: x in f.res && f.res[x] == f.events[x])
    && (forall i :: 0 <= i < |f.calls| ==> SaysResult(f.calls[i], f.events))
    && Told(f.calls) == s.handled
  }

  ghost predicate Good(s: State, f: Fields) {
    Inv(s) && Shows(s, f) && Results(s, f)
  }

  lemma NotAccepted(s: State, x: Session)
    requires Inv(s) && x !in s.accepted
    ensures x !in s.kernel + s.fetched + s.queued + s.calling && x !in s.sessions
  {
    hide RefCounts;
    assert Places(s, x) == 0;
  }

  lemma Listed(s: State, x: Session)
    requires Inv(s)
    ensures s.sessions == s.kernel + s.fetched + s.queued && Places(s, x) == One(x in s.accepted)
  {
    hide RefCounts, Places;
  }

  lemma RequestGood(s: State, f: Fields, x: Session)
    requires Good(s, f) && f.fd >= 0 && x !in s.accepted
    ensures Enabled(s, Request(x)) && Good(Apply(s, Request(x)), f.(list := f.list + [x]))
  {
    hide Inv;
    StepKeeps(s, Request(x));
    NotAccepted(s, x);
    NoDupPlus(f.list, x);
    assert Elems(f.list + [x]) == Elems(f.list) + {x};
  }

  lemma RefusedGood(s: State, f: Fields, x: Session, r: int)
    requires Good(s, f) && x !in s.accepted
    ensures Good(s, f.(res := f.res[x := r]))
  {
    hide Inv;
    NotAccepted(s, x);
  }

  lemma EventGood(s: State, f: Fields, x: Session, r: int)
    requires Good(s, f) && Enabled(s, Event(x))
    ensures Good(Apply(s, Event(x)), f.(events := f.events[x := r]))
  {
    hide Inv;
    StepKeeps(s, Event(x));
    Listed(s, x);
  }

  lemma IncrefGood(s: State, f: Fields, x: Session)
    requires Good(s, f) && Enabled(s, Incref(x))
    ensures x in f.events && s.ref == f.ref
    ensures Good(Apply(s, Incref(x)), f.(ref := f.ref + 1, res := f.res[x := f.events[x]]))
  {
    hide Inv;
    StepKeeps(s, Incref(x));
  }

  lemma TakeGood(s: State, f: Fields, x: Session)
    requires Good(s, f) && Enabled(s, TakeResult(x))
    ensures x in f.list
  {
    hide Inv;
    Listed(s, x);
  }

  lemma CutGood(s: State, f: Fields, i: nat)
    requires Good(s, f) && i < |f.list| && Enabled(s, TakeResult(f.list[i]))
    ensures Good(Apply(s, TakeResult(f.list[i])), f.(list := Cut(f.list, i)))
  {
    hide Inv, Cut, NoDup;
    StepKeeps(s, TakeResult(f.list[i]));
    CutNoDup(f.list, i);
    CutElems(f.list, i);
  }

  /** What a handler tells a session with that result. */
  function CallFor(x: Session, r: int): Call {
    Call(x, r >= 0, if r >= 0 then 0 else -r)
  }

  lemma HandleParts(s: State, x: Session)
    requires Enabled(s, Handle(x))
    ensures var t := Apply(s, Handle(x));
      && x in s.calling && t.calling == s.calling - {x} && t.handled == s.handled + multiset{x}
      && t.ref == s.ref && t.open == s.open && t.sessions == s.sessions && t.accepted == s.accepted
      && t.kernel == s.kernel && t.fetched == s.fetched && t.queued == s.queued
  {
  }

  lemma Said(calls: seq<Call>, c: Call, events: map<Session, int>)
    requires (forall i :: 0 <= i < |calls| ==> SaysResult(calls[i], events)) && SaysResult(c, events)
    ensures forall i :: 0 <= i < |calls + [c]| ==> SaysResult((calls + [c])[i], events)
  {
  }

  lemma HandleGood(s: State, f: Fields, x: Session)
    requires Good(s, f) && Enabled(s, Handle(x))
    ensures x in f.res && SaysResult(CallFor(x, f.res[x]), f.events)
    ensures CallFor(x, f.res[x]).session == x
    ensures Good(Apply(s, Handle(x)), f.(calls := f.calls + [CallFor(x, f.res[x])]))
  {
    hide Inv, Apply, Enabled, NoDup, Told;
    HandleParts(s, x);
    StepKeeps(s, Handle(x));
    var c := CallFor(x, f.res[x]);
    ToldMore(f.calls, c);
    Said(f.calls, c, f.events);
  }

  lemma DecrefGood(s: State, f: Fields)
    requires Good(s, f) && Enabled(s, Decref)
    ensures Good(Apply(s, Decref), f.(ref := f.ref - 1))
    ensures Apply(s, Decref).draining <==> f.ref == 1
  {
    hide Inv;
    StepKeeps(s, Decref);
  }

  lemma FetchParts(s: State, x: Session)
    requires Inv(s) && s.draining && x in s.sessions
    ensures Enabled(s, Fetch(x)) && x in s.accepted
    ensures var t := Apply(s, Fetch(x));
      && t.draining && t.sessions == s.sessions - {x} && t.kernel == s.kernel - {x} && t.handled == s.handled + multiset{x}
      && t.ref == s.ref && t.open == s.open && t.accepted == s.accepted
      && t.fetched == s.fetched && t.queued == s.queued && t.calling == s.calling && x in s.kernel
  {
    hide Inv, Places;
    NobodyLeft(s);
    Listed(s, x);
    Kernel(s, x);
  }

  lemma Kernel(s: State, x: Session)
    requires Inv(s) && x in s.kernel
    ensures x in s.accepted
  {
    hide RefCounts;
    assert Places(s, x) == One(x in s.accepted);
  }

  lemma StillSaid(calls: seq<Call>, x: Session, r: int, events: map<Session, int>)
    requires x !in events && forall i :: 0 <= i < |calls| ==> SaysResult(calls[i], events)
    ensures forall i :: 0 <= i < |calls| ==> SaysResult(calls[i], events[x := r])
  {
  }

  lemma FetchResults(s: State, f: Fields, x: Session, r: int)
    requires Good(s, f) && s.draining && x in s.sessions
    ensures Enabled(s, Fetch(x))
    ensures Results(Apply(s, Fetch(x)), f.(res := f.res[x := r], events := f.events[x := r], calls := f.calls + [CallFor(x, r)]))
  {
    hide Inv, Apply, Enabled, NoDup, Told;
    FetchParts(s, x);
    ToldMore(f.calls, CallFor(x, r));
    StillSaid(f.calls, x, r, f.events);
    Said(f.calls, CallFor(x, r), f.events[x := r]);
  }

  lemma FetchGood(s: State, f: Fields, i: nat, r: int)
    requires Good(s, f) && s.draining && i < |f.list|
    ensures var x := f.list[i];
      && Enabled(s, Fetch(x)) && Apply(s, Fetch(x)).draining
      && Good(Apply(s, Fetch(x)), f.(list := Cut(f.list, i), res := f.res[x := r], events := f.events[x := r],
                                     calls := f.calls + [CallFor(x, r)]))
  {
    hide Inv, Cut, Apply, Enabled, NoDup, Told, SaysResult, CallFor;
    var x := f.list[i];
    CutElems(f.list, i);
    FetchParts(s, x);
    FetchResults(s, f, x, r);
    StepKeeps(s, Fetch(x));
    CutNoDup(f.list, i);
  }

  lemma TellGood(s: State, f: Fields)
    requires Good(s, f) && s.draining && f.list == []
    ensures Enabled(s, Tell) && Good(Apply(s, Tell), f)
    ensures Apply(s, Tell).unbound == 1 && Apply(s, Tell).accepted == s.accepted && Told(f.calls) == multiset(s.accepted)
  {
    hide Inv;
    StepKeeps(s, Tell);
    AllDone(s);
  }

  lemma ShutdownGood(s: State, f: Fields)
    requires Good(s, f) && Enabled(s, Shutdown)
    ensures Good(Apply(s, Shutdown), f.(fd := -1))
  {
    hide Inv;
    StepKeeps(s, Shutdown);
  }

  predicate ElsewhereStep(a: Action) {
    a.Unbind? || a.PollerEnds? || a.Deleted? || a.HandleStop?
  }

  lemma ElsewhereSame(s: State, a: Action)
    requires Enabled(s, a) && ElsewhereStep(a)
    ensures var t := Apply(s, a);
      && t.ref == s.ref && t.open == s.open && t.sessions == s.sessions && t.accepted == s.accepted && t.handled == s.handled
      && t.kernel == s.kernel && t.fetched == s.fetched && t.queued == s.queued && t.calling == s.calling
  {
    match a
    case Unbind =>
    case PollerEnds =>
    case Deleted =>
    case HandleStop =>
  }

  lemma ElsewhereGood(s: State, f: Fields, a: Action)
    requires Good(s, f) && Enabled(s, a) && ElsewhereStep(a)
    ensures Good(Apply(s, a), f)
  {
    hide Inv, Apply, Enabled, NoDup, Told, SaysResult, ElsewhereStep;
    ElsewhereSame(s, a);
    StepKeeps(s, a);
  }

  /** What one section of a function leaves for the next one. */
  lemma Leads(s: State, a: Action)
    requires Enabled(s, a)
    ensures var t := Apply(s, a);
      && (a.Event? ==> Enabled(t, Incref(a.session))) && (a.TakeResult? ==> Enabled(t, Handle(a.session)))
      && (a.Handle? || a.Shutdown? ==> Enabled(t, Decref)) && (a.Deleted? ==> Enabled(t, Shutdown))
      && (a.Unbind? && !s.reg.Registered? ==> Enabled(t, Shutdown))
  {
  }

  lemma NoneListed(s: State)
    requires Inv(s)
    ensures s.unbound == 1 ==> s.sessions == {}
  {
    hide SessionsKept, Binding, Owners;
  }

  lemma CutLess(l: seq<Session>, i: nat)
    requires i < |l|
    ensures |Cut(l, i)| == |l| - 1 && Elems(Cut(l, i)) <= Elems(l)
  {
  }

  class IOService {
    var ref: int
    var eventFd: int
    /** m_session_list */
    var sessionList: seq<Session>
    /** session->res */
    var res: map<Session, int>
    /** Where everything else is: in the kernel, in the poller and in the hands of threads. */
    ghost var s: State
    ghost var run: seq<Action>
    ghost var events: map<Session, int>
    ghost var calls: seq<Call>

    ghost function Now(): Fields
      reads this
    {
      Fields(ref, eventFd, sessionList, res, events, calls)
    }

    ghost predicate Valid()
      reads this
    {
      Good(s, Now()) && Runs(BOUND, run, s)
    }

    /** io_bind */
    constructor (fd: nat)
      ensures Valid() && s == BOUND && run == [] && calls == [] && ref == 1 && eventFd == fd && sessionList == []
    {
      hide Inv;
      ref, eventFd, sessionList, res := 1, fd, [], map[];
      s, run, events, calls := BOUND, [], map[], [];
      BoundInv();
    }

    ghost method Took(a: Action)
      requires Runs(BOUND, run, s) && Enabled(s, a)
      modifies this`s, this`run
      ensures Runs(BOUND, run, s) && run == old(run) + [a] && s == Apply(old(s), a)
    {
      hide Enabled, Apply, Runs;
      Extend(BOUND, run, s, a);
      run, s := run + [a], Apply(s, a);
    }

    // ---------- critical sections, atomic operations and callbacks ----------

    /** IOService::request: accepted only while event_fd is there; a session is passed once. */
    method Request(x: Session, prepared: bool, submitted: bool, errno: int) returns (ret: int)
      requires Valid() && x !in s.accepted
      modifies this`sessionList, this`res, this`s, this`run
      ensures Valid() && (ret == 0 <==> old(eventFd >= 0) && prepared && submitted)
      ensures ret == 0 ==> sessionList == old(sessionList) + [x] && res == old(res) && run == old(run) + [Action.Request(x)]
      ensures ret != 0 ==> ret == -1 && s == old(s) && run == old(run) && sessionList == old(sessionList)
      ensures ret != 0 ==> res == old(res)[x := -errno]
    {
      hide Runs, Good, Apply, Enabled;
      ret := -1;
      if eventFd >= 0 && prepared && submitted {
        RequestGood(s, Now(), x);
        sessionList := sessionList + [x];
        ret := 0;
        Took(Action.Request(x));
      } else {
        RefusedGood(s, Now(), x, -errno);
        res := res[x := -errno];
      }
    }

    /** aio_finish: io_getevents reports the event of one request. */
    method GetEvent(x: Session, r: int)
      requires Valid() && Enabled(s, Event(x))
      modifies this`s, this`run, this`events
      ensures Valid() && run == old(run) + [Event(x)] && s == Apply(old(s), Event(x)) && events == old(events)[x := r]
    {
      hide Runs, Good, Apply, Enabled;
      EventGood(s, Now(), x, r);
      events := events[x := r];
      Took(Event(x));
    }

    /** ... and the reference that its result holds, on a count that is positive. */
    method Incref(x: Session, r: int)
      requires Valid() && Enabled(s, Action.Incref(x)) && x in events && events[x] == r
      modifies this`s, this`run, this`ref, this`res
      ensures Valid() && run == old(run) + [Action.Incref(x)] && s == Apply(old(s), Action.Incref(x))
      ensures old(ref) > 0 && ref == old(ref) + 1 && res == old(res)[x := r]
    {
      hide Runs, Good, Apply, Enabled;
      IncrefGood(s, Now(), x);
      IncrefAlive(run, s, x);
      ref := ref + 1;
      res := res[x := r];
      Took(Action.Incref(x));
    }

    /** handle_aio_result: the session leaves the list under the lock. */
    method Unlist(x: Session)
      requires Valid() && Enabled(s, Action.TakeResult(x))
      modifies this`s, this`run, this`sessionList
      ensures Valid() && run == old(run) + [Action.TakeResult(x)] && s == Apply(old(s), Action.TakeResult(x))
      ensures CutOf(old(sessionList), x, sessionList)
    {
      hide Runs, Good, Apply, Enabled, Cut;
      TakeGood(s, Now(), x);
      var i: nat :| i < |sessionList| && sessionList[i] == x;
      CutGood(s, Now(), i);
      sessionList := Cut(sessionList, i);
      Took(Action.TakeResult(x));
    }

    /** ... and is called with the result it carries. */
    method CallSession(x: Session) returns (c: Call)
      requires Valid() && Enabled(s, Action.Handle(x))
      modifies this`s, this`run, this`calls
      ensures Valid() && run == old(run) + [Action.Handle(x)] && s == Apply(old(s), Action.Handle(x))
      ensures calls == old(calls) + [c] && c.session == x && SaysResult(c, events)
    {
      hide Runs, Good, Apply, Enabled, SaysResult, CallFor;
      HandleGood(s, Now(), x);
      c := CallFor(x, res[x]);
      calls := calls + [c];
      Took(Action.Handle(x));
    }

    /** decref: the atomic subtraction, and whether it came to zero. */
    method Subtract() returns (zero: bool)
      requires Valid() && Enabled(s, Action.Decref)
      modifies this`s, this`run, this`ref
      ensures Valid() && run == old(run) + [Action.Decref] && s == Apply(old(s), Action.Decref)
      ensures ref == old(ref) - 1 && (zero <==> ref == 0) && (zero <==> s.draining)
    {
      hide Runs, Good, Apply, Enabled;
      DecrefGood(s, Now());
      ref := ref - 1;
      zero := ref == 0;
      Took(Action.Decref);
    }

    /** decref: a blocking io_getevents reports the event of some request, whichever it is; its
        session is unlisted and called. */
    method Fetch()
      requires Valid() && s.draining && sessionList != []
      modifies this`s, this`run, this`sessionList, this`res, this`events, this`calls
      ensures Valid() && s.draining && (exists x | x in old(sessionList) :: run == old(run) + [Action.Fetch(x)])
      ensures |sessionList| == |old(sessionList)| - 1 && Elems(sessionList) <= Elems(old(sessionList))
      ensures old(calls) <= calls
    {
      hide Runs, Good, Apply, Enabled, Cut;
      var i: nat :| i < |sessionList|;
      var r: int := *;
      var x := sessionList[i];
      FetchGood(s, Now(), i, r);
      CutLess(sessionList, i);
      sessionList := Cut(sessionList, i);
      res, events := res[x := r], events[x := r];
      calls := calls + [CallFor(x, r)];
      Took(Action.Fetch(x));
    }

    /** decref: the service is told that it is unbound. */
    method HandleUnbound()
      requires Valid() && s.draining && sessionList == []
      modifies this`s, this`run
      ensures Valid() && run == old(run) + [Tell] && s == Apply(old(s), Tell)
      ensures s.unbound == 1 && Told(calls) == multiset(s.accepted)
    {
      hide Runs, Good, Apply, Enabled;
      TellGood(s, Now());
      Took(Tell);
    }

    /** shutdown_io_service, under the lock */
    method CloseFd()
      requires Valid() && Enabled(s, Shutdown)
      modifies this`s, this`run, this`eventFd
      ensures Valid() && run == old(run) + [Shutdown] && s == Apply(old(s), Shutdown) && eventFd < 0
    {
      hide Runs, Good, Apply, Enabled;
      ShutdownGood(s, Now());
      eventFd := -1;
      Took(Shutdown);
    }

    /** What happens to the registration: io_unbind's mpoller_del, its end by an error or by
        poller_stop, and the arrival of its result at a handler. */
    ghost method Elsewhere(a: Action)
      requires Valid() && Enabled(s, a) && ElsewhereStep(a)
      modifies this`s, this`run
      ensures Valid() && run == old(run) + [a] && s == Apply(old(s), a)
    {
      hide Runs, Good, Apply, Enabled;
      ElsewhereGood(s, Now(), a);
      Took(a);
    }

    // ---------- the functions of the source, when nobody comes in between ----------

    /** aio_finish: the result is stored in its session, and a reference goes with it. */
    method AioFinish(x: Session, r: int) returns (session: Session)
      requires Valid() && Enabled(s, Event(x))
      modifies this`s, this`run, this`events, this`ref, this`res
      ensures Valid() && session == x && run == old(run) + [Event(x), Action.Incref(x)]
      ensures old(ref) > 0 && ref == old(ref) + 1 && res == old(res)[x := r]
    {
      hide Runs, Good, Apply, Enabled;
      Leads(s, Event(x));
      GetEvent(x, r);
      Incref(x, r);
      session := x;
    }

    /** IOService::decref.  Above zero nothing else happens.  At zero the event of each session that
        is left is waited for, each is called, and then the service is told, once, that it is
        unbound: by then every session it ever accepted has been called, once. */
    method Decref() returns (ghost more: seq<Action>)
      requires Valid() && Enabled(s, Action.Decref)
      modifies this`s, this`run, this`ref, this`sessionList, this`res, this`events, this`calls
      ensures Valid() && run == old(run) + more && DecrefRun(more, old(ref), old(sessionList))
      ensures ref == old(ref) - 1 && old(calls) <= calls
      ensures ref != 0 ==> sessionList == old(sessionList) && calls == old(calls)
      ensures ref == 0 ==> sessionList == [] && s.unbound == 1 && Told(calls) == multiset(s.accepted)
    {
      hide Runs, Good, Apply, Enabled, Told;
      var zero := Subtract();
      more := [Action.Decref];
      if zero {
        ghost var left := sessionList;
        ghost var fetched: seq<Action> := [];
        while sessionList != []
          invariant Valid() && s.draining && ref == 0 && run == old(run) + [Action.Decref] + fetched
          invariant |fetched| + |sessionList| == |left| && Elems(sessionList) <= Elems(left) && old(calls) <= calls
          invariant forall i :: 0 <= i < |fetched| ==> fetched[i].Fetch? && fetched[i].session in left
          decreases |sessionList|
        {
          ghost var before, list := run, sessionList;
          Fetch();
          ghost var x :| x in list && run == before + [Action.Fetch(x)];
          assert x in Elems(list);
          fetched := fetched + [Action.Fetch(x)];
        }
        HandleUnbound();
        more := [Action.Decref] + (fetched + [Tell]);
      }
    }

    /** shutdown_io_service */
    method ShutdownIoService() returns (ghost more: seq<Action>)
      requires Valid() && Enabled(s, Shutdown)
      modifies this`s, this`run, this`ref, this`eventFd, this`sessionList, this`res, this`events, this`calls
      ensures Valid() && eventFd < 0 && run == old(run) + [Shutdown] + more && DecrefRun(more, old(ref), old(sessionList))
      ensures ref == old(ref) - 1 && old(calls) <= calls
      ensures ref == 0 ==> sessionList == [] && s.unbound == 1 && Told(calls) == multiset(s.accepted)
    {
      hide Runs, Good, Apply, Enabled, Told, DecrefRun;
      Leads(s, Shutdown);
      CloseFd();
      more := Decref();
    }

    /** handle_aio_result.  A finished session is unlisted and called with the result of its event,
        and its reference is given up; a removed registration shuts the service down; in the two
        other cases the service is told that it stops, without a reference. */
    method HandleAioResult(r: Result) returns (ghost more: seq<Action>)
      requires Valid() && Arrives(s, r)
      modifies this`s, this`run, this`ref, this`eventFd, this`sessionList, this`res, this`events, this`calls
      ensures Valid() && run == old(run) + more && ResultRun(r, more, old(ref), old(sessionList))
      ensures ref == if r.Finished? || r.Removed? then old(ref) - 1 else old(ref)
      ensures old(calls) <= calls && (r.Finished? ==> |calls| > |old(calls)| && calls[|old(calls)|].session == r.session)
      ensures r.Failed? || r.Stopped? ==> calls == old(calls) && sessionList == old(sessionList) && eventFd == old(eventFd)
      ensures (r.Finished? || r.Removed?) && ref == 0 ==> sessionList == [] && s.unbound == 1 && Told(calls) == multiset(s.accepted)
    {
      hide Runs, Good, Apply, Enabled, Told, DecrefRun, CutOf, SaysResult;
      match r {
        case Finished(x) =>
          Leads(s, Action.TakeResult(x));
          Unlist(x);
          Leads(s, Action.Handle(x));
          ghost var left := sessionList;
          var c := CallSession(x);
          more := Decref();
          more := [Action.TakeResult(x), Action.Handle(x)] + more;
        case Removed =>
          Leads(s, Deleted);
          Elsewhere(Deleted);
          more := ShutdownIoService();
          more := [Deleted, Shutdown] + more;
        case Failed =>
          Elsewhere(HandleStop);
          more := [HandleStop];
        case Stopped =>
          Elsewhere(HandleStop);
          more := [HandleStop];
      }
    }

    /** io_unbind: a registration that is still there is deleted, and its DELETED result will shut
        the service down; otherwise io_unbind does that itself. */
    method IoUnbind(deleted: bool) returns (ghost more: seq<Action>)
      requires Valid() && Enabled(s, Unbind) && deleted == s.reg.Registered?
      modifies this`s, this`run, this`ref, this`eventFd, this`sessionList, this`res, this`events, this`calls
      ensures Valid() && old(calls) <= calls
      ensures deleted ==> run == old(run) + [Unbind] && ref == old(ref) && eventFd == old(eventFd) && more == []
      ensures !deleted ==> run == old(run) + [Unbind, Shutdown] + more && DecrefRun(more, old(ref), old(sessionList))
      ensures !deleted ==> ref == old(ref) - 1 && eventFd < 0
      ensures !deleted && ref == 0 ==> sessionList == [] && s.unbound == 1 && Told(calls) == multiset(s.accepted)
    {
      hide Runs, Good, Apply, Enabled, Told, DecrefRun;
      Leads(s, Unbind);
      Elsewhere(Unbind);
      more := [];
      if !deleted {
        more := ShutdownIoService();
      }
    }

    /** However the sections have been interleaved since io_bind: the list and the count are right;
        every session told so far was told once, with the result of its event; and the service can
        still come to be unbound with all of them told. */
    lemma Accounts(x: Session)
      requires Valid()
      ensures ref == Owners(s) && NoDup(sessionList) && Told(calls)[x] <= One(x in s.accepted)
      ensures forall i :: 0 <= i < |calls| ==> SaysResult(calls[i], events)
      ensures s.unbound == 1 ==> Told(calls) == multiset(s.accepted) && sessionList == [] && Owners(s) == 0 && eventFd < 0
      ensures exists more, t :: Runs(s, more, t) && t.unbound == 1 && t.handled == multiset(s.accepted)
    {
      hide Runs, Inv, SaysResult;
      HandledOnce(run, s, x);
      NoneListed(s);
      assert sessionList != [] ==> sessionList[0] in Elems(sessionList);
      var more, t := UnboundReached(run, s);
    }
  }
}
