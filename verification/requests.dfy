/** Requests over any number of client connections (Communicator::request, request_idle_conn
    and request_new_conn in src/kernel/communicator.cc): the connections of module Connection
    side by side, and the callers that look for one. */
module Requests {
  import opened Common
  import opened Connection

  datatype Client = Client(
    conns: seq<Conn>,
    asked: set<Session>,     // every session ever given to request
    looking: set<Session>,   // in the loop of request_idle_conn, or past it, without a connection
    rejected: set<Session>)  // request has returned -1

  datatype Move =
    | Ask(session: Session)
    | Grab(conn: nat, session: Session)
    | NewConn(session: Session)
    | NoConn(session: Session)
    | Act(conn: nat, action: Action)

  ghost predicate Possible(c: Client, m: Move) {
    match m
    case Ask(s) => s !in c.asked
    case Grab(k, s) => k < |c.conns| && s in c.looking && Enabled(c.conns[k], TakeIdle(s))
    case NewConn(s) => s in c.looking
    case NoConn(s) => s in c.looking
    case Act(k, a) => k < |c.conns| && !a.TakeIdle? && Enabled(c.conns[k], a)
  }

  /** The sessions a step sends away: set_timeout failed on the idle connection, so its caller
      looks on; or the registration of a new connection failed, so request returns -1. */
  ghost function BackToLoop(c: Conn, a: Action): set<Session> {
    if a.Probe? && !a.found then {a.session} else {}
  }

  ghost function TurnedAway(c: Conn, a: Action): set<Session> {
    if a.Register? && !a.ok && c.reg.Launching? then {c.session} else {}
  }

  ghost function After(c: Client, m: Move): Client
    requires Possible(c, m)
  {
    match m
    case Ask(s) => c.(asked := c.asked + {s}, looking := c.looking + {s})
    case Grab(k, s) => c.(conns := c.conns[k := Apply(c.conns[k], TakeIdle(s))], looking := c.looking - {s})
    case NewConn(s) => c.(conns := c.conns + [Launch(s)], looking := c.looking - {s})
    case NoConn(s) => c.(looking := c.looking - {s}, rejected := c.rejected + {s})
    case Act(k, a) =>
      Client(c.conns[k := Apply(c.conns[k], a)], c.asked,
             c.looking + BackToLoop(c.conns[k], a), c.rejected + TurnedAway(c.conns[k], a))
  }

  ghost predicate Moves(c: Client, run: seq<Move>, d: Client)
    decreases |run|
  {
    if run == [] then c == d
    else Possible(c, run[0]) && Moves(After(c, run[0]), run[1..], d)
  }

  const START := Client([], {}, {}, {})

  /** The sessions a connection has accepted or is about to try. */
  ghost function Claims(c: Conn): set<Session> {
    c.accepted + (if c.caller.Probing? then {c.caller.session} else {}) + if c.reg.Launching? then {c.session} else {}
  }

  ghost predicate Apart(c: Client) {
    forall j, k :: 0 <= j < k < |c.conns| ==> Claims(c.conns[j]) !! Claims(c.conns[k])
  }

  ghost predicate Claimed(c: Client, s: Session) {
    exists k :: 0 <= k < |c.conns| && s in Claims(c.conns[k])
  }

  /** Every session given to request is in exactly one place. */
  ghost predicate Sound(c: Client) {
    && (forall k :: 0 <= k < |c.conns| ==> Inv(c.conns[k]) && Claims(c.conns[k]) <= c.asked)
    && Apart(c)
    && (forall k :: 0 <= k < |c.conns| ==> Claims(c.conns[k]) !! c.looking && Claims(c.conns[k]) !! c.rejected)
    && c.looking !! c.rejected && c.looking <= c.asked && c.rejected <= c.asked
    && (forall s :: s in c.asked ==> s in c.looking || s in c.rejected || Claimed(c, s))
  }

  lemma ClaimsMoved(c: Conn, a: Action)
    requires Inv(c) && Enabled(c, a) && (a.Probe? || a.Register?)
    ensures Claims(Apply(c, a)) == Claims(c) - BackToLoop(c, a) - TurnedAway(c, a)
  {
    hide Places, Owners, RefCounts;
  }

  /** What Claims looks at. */
  ghost predicate SameClaims(c: Conn, d: Conn) {
    && d.accepted == c.accepted && d.caller.Probing? == c.caller.Probing? && d.reg.Launching? == c.reg.Launching?
    && (c.caller.Probing? ==> d.caller == c.caller) && (c.reg.Launching? ==> d.session == c.session)
  }

  lemma ReaderKeepsClaims(c: Conn, a: Action)
    requires Enabled(c, a) && ByReader(a)
    ensures SameClaims(c, Apply(c, a))
  {
  }

  lemma PollerKeepsClaims(c: Conn, a: Action)
    requires Enabled(c, a) && ByPoller(a) && !a.Register?
    ensures SameClaims(c, Apply(c, a))
  {
  }

  lemma OthersKeepClaims(c: Conn, a: Action)
    requires Enabled(c, a) && !ByReader(a) && !ByPoller(a) && !a.Probe? && !a.TakeIdle?
    ensures SameClaims(c, Apply(c, a))
  {
  }

  lemma ClaimsOfStep(c: Conn, a: Action)
    requires Inv(c) && Enabled(c, a) && !a.TakeIdle?
    ensures Claims(Apply(c, a)) == Claims(c) - BackToLoop(c, a) - TurnedAway(c, a)
    ensures BackToLoop(c, a) + TurnedAway(c, a) <= Claims(c)
    ensures BackToLoop(c, a) !! TurnedAway(c, a)
  {
    hide Inv, Apply, Enabled;
    NotBoth(c, a);
    if a.Probe? || a.Register? {
      ClaimsMoved(c, a);
    } else if ByReader(a) {
      ReaderKeepsClaims(c, a);
    } else if ByPoller(a) {
      PollerKeepsClaims(c, a);
    } else {
      OthersKeepClaims(c, a);
    }
  }

  lemma NotBoth(c: Conn, a: Action)
    requires Inv(c) && Enabled(c, a)
    ensures a.Probe? ==> c.caller == Probing(a.session)
    ensures a.Register? ==> c.reg.Launching?
  {
    hide Places, Owners, RefCounts, SessionsKept, Shape;
  }

  lemma StaysClaimed(c: Client, k: nat, d: Conn, s: Session)
    requires k < |c.conns| && Claimed(c, s) && (s in Claims(c.conns[k]) ==> s in Claims(d))
    ensures Claimed(c.(conns := c.conns[k := d]), s)
  {
    var e := c.(conns := c.conns[k := d]);
    var j :| 0 <= j < |c.conns| && s in Claims(c.conns[j]);
    assert s in Claims(e.conns[j]);
  }

  lemma ActSound(c: Client, k: nat, a: Action)
    requires Sound(c) && Possible(c, Act(k, a))
    ensures Sound(After(c, Act(k, a)))
  {
    hide Inv, Enabled, Apply, Claims, BackToLoop, TurnedAway;
    var d := After(c, Act(k, a));
    var back, away := BackToLoop(c.conns[k], a), TurnedAway(c.conns[k], a);
    StepKeeps(c.conns[k], a);
    ClaimsOfStep(c.conns[k], a);
    forall s | s in c.asked && Claimed(c, s) && s !in back && s !in away ensures Claimed(d, s) {
      StaysClaimed(c, k, d.conns[k], s);
    }
    assert back <= c.asked && away <= c.asked;
  }

  lemma GrabClaims(c: Conn, s: Session)
    requires Enabled(c, TakeIdle(s))
    ensures Claims(Apply(c, TakeIdle(s))) == Claims(c) + {s}
  {
  }

  lemma GrabSound(c: Client, k: nat, s: Session)
    requires Sound(c) && Possible(c, Grab(k, s))
    ensures Sound(After(c, Grab(k, s)))
  {
    hide Inv, Enabled, Apply, Claims;
    var d := After(c, Grab(k, s));
    StepKeeps(c.conns[k], TakeIdle(s));
    GrabClaims(c.conns[k], s);
    forall x | x in c.asked && Claimed(c, x) ensures Claimed(d, x) { StaysClaimed(c, k, d.conns[k], x); }
    assert s in Claims(d.conns[k]);
  }

  lemma NewConnSound(c: Client, s: Session)
    requires Sound(c) && s in c.looking
    ensures Sound(After(c, NewConn(s)))
  {
    hide Inv;
    var d := After(c, NewConn(s));
    LaunchInv(s);
    assert Claims(Launch(s)) == {s};
    assert d.conns[|c.conns|] == Launch(s);
    assert s in Claims(d.conns[|c.conns|]);
    forall x | x in c.asked && Claimed(c, x) ensures Claimed(d, x) {
      var j :| 0 <= j < |c.conns| && x in Claims(c.conns[j]);
      assert x in Claims(d.conns[j]);
    }
  }

  lemma MoveSound(c: Client, m: Move)
    requires Sound(c) && Possible(c, m)
    ensures Sound(After(c, m))
  {
    hide Inv, Enabled, Apply, Claims, BackToLoop, TurnedAway;
    match m
    case Grab(k, s) => GrabSound(c, k, s);
    case NewConn(s) => NewConnSound(c, s);
    case Act(k, a) => ActSound(c, k, a);
    case _ =>
      assert forall s :: Claimed(After(c, m), s) <==> Claimed(c, s);
  }

  lemma {:induction false} RunSound(c: Client, run: seq<Move>, d: Client)
    requires Sound(c) && Moves(c, run, d)
    ensures Sound(d)
    decreases |run|
  {
    hide Sound, Possible, After;
    if run != [] {
      MoveSound(c, run[0]);
      RunSound(After(c, run[0]), run[1..], d);
    }
  }

  // ---------- one call per accepted session ----------

  /** All calls of target->release and session->handle for a session. */
  ghost function Calls(conns: seq<Conn>, s: Session): nat {
    if conns == [] then 0 else conns[0].handled[s] + Calls(conns[1..], s)
  }

  lemma {:induction false} CallsNowhere(conns: seq<Conn>, s: Session)
    requires forall k :: 0 <= k < |conns| ==> conns[k].handled[s] == 0
    ensures Calls(conns, s) == 0
  {
    if conns != [] { CallsNowhere(conns[1..], s); }
  }

  lemma {:induction false} CallsAt(conns: seq<Conn>, k: nat, s: Session)
    requires k < |conns| && forall j :: 0 <= j < |conns| && j != k ==> conns[j].handled[s] == 0
    ensures Calls(conns, s) == conns[k].handled[s]
  {
    if k == 0 {
      assert forall j :: 0 <= j < |conns| - 1 ==> conns[1..][j] == conns[j + 1];
      CallsNowhere(conns[1..], s);
    } else {
      CallsAt(conns[1..], k - 1, s);
    }
  }

  lemma HandledClaimed(c: Conn, s: Session)
    requires Inv(c)
    ensures c.handled[s] <= One(s in c.accepted) && (s !in Claims(c) ==> c.handled[s] == 0)
  {
    hide Owners, RefCounts, Shape;
    assert Places(c, s) == One(s in c.accepted);
  }

  /** Over every run, with any number of connections, callers and handler threads: a session is
      called at most once, and never if request returned -1 or has not found a connection. */
  lemma CalledAtMostOnce(run: seq<Move>, c: Client, s: Session)
    requires Moves(START, run, c)
    ensures Calls(c.conns, s) <= 1
    ensures s in c.rejected || s in c.looking || s !in c.asked ==> Calls(c.conns, s) == 0
  {
    hide Inv, Possible, After, Claims, Moves;
    RunSound(START, run, c);
    forall k | 0 <= k < |c.conns| ensures s !in Claims(c.conns[k]) ==> c.conns[k].handled[s] == 0 {
      HandledClaimed(c.conns[k], s);
    }
    if Claimed(c, s) {
      var k :| 0 <= k < |c.conns| && s in Claims(c.conns[k]);
      CallsAt(c.conns, k, s);
      HandledClaimed(c.conns[k], s);
    } else {
      CallsNowhere(c.conns, s);
    }
  }

  /** When all connections have been released and nobody is looking for one, every session that
      request did not turn away has been called exactly once. */
  lemma CalledExactlyOnce(run: seq<Move>, c: Client, s: Session)
    requires Moves(START, run, c) && c.looking == {}
    requires forall k :: 0 <= k < |c.conns| ==> c.conns[k].freed == 1
    ensures Calls(c.conns, s) == One(s in c.asked && s !in c.rejected)
  {
    hide Inv, Possible, After, Claims, Moves;
    RunSound(START, run, c);
    CalledAtMostOnce(run, c, s);
    if s in c.asked && s !in c.rejected {
      var k :| 0 <= k < |c.conns| && s in Claims(c.conns[k]);
      forall j | 0 <= j < |c.conns| && j != k ensures c.conns[j].handled[s] == 0 {
        HandledClaimed(c.conns[j], s);
      }
      CallsAt(c.conns, k, s);
      ReleasedCalls(c.conns[k], s);
    }
  }

  lemma ReleasedCalls(c: Conn, s: Session)
    requires Inv(c) && c.freed == 1 && s in Claims(c)
    ensures c.handled[s] == 1
  {
    assert Places(c, s) == One(s in c.accepted);
  }

  // ---------- all of them can come to their end ----------

  lemma {:induction false} Longer(c: Client, r1: seq<Move>, m: Client, r2: seq<Move>, d: Client)
    requires Moves(c, r1, m) && Moves(m, r2, d)
    ensures Moves(c, r1 + r2, d)
    decreases |r1|
  {
    hide Possible, After;
    if r1 == [] {
      assert r1 + r2 == r2;
    } else {
      Longer(After(c, r1[0]), r1[1..], m, r2, d);
      assert (r1 + r2)[1..] == r1[1..] + r2;
    }
  }

  lemma MoveThen(c: Client, m: Move, run: seq<Move>, d: Client)
    requires Possible(c, m) && Moves(After(c, m), run, d)
    ensures Moves(c, [m] + run, d)
  {
    hide Possible, After;
    assert ([m] + run)[1..] == run;
  }

  /** A run of one connection that takes no idle entry is a run of all, in which the others rest. */
  lemma {:induction false} Lift(c: Client, k: nat, run: seq<Action>, e: Conn) returns (moves: seq<Move>, d: Client)
    requires k < |c.conns| && Runs(c.conns[k], run, e) && forall i :: 0 <= i < |run| ==> !run[i].TakeIdle?
    ensures Moves(c, moves, d) && d.conns == c.conns[k := e] && d.asked == c.asked
    decreases |run|
  {
    hide Enabled, Apply;
    if run == [] {
      moves, d := [], c;
      assert c.conns[k := e] == c.conns;
    } else {
      assert !run[0].TakeIdle?;
      var m := Act(k, run[0]);
      assert forall i :: 0 <= i < |run[1..]| ==> run[1..][i] == run[i + 1];
      moves, d := Lift(After(c, m), k, run[1..], e);
      MoveThen(c, m, moves, d);
      moves := [m] + moves;
    }
  }

  /** The first n connections come to their ends. */
  lemma {:induction false} EndConns(c: Client, n: nat) returns (moves: seq<Move>, d: Client)
    requires Sound(c) && n <= |c.conns|
    ensures Moves(c, moves, d) && Sound(d) && d.asked == c.asked && |d.conns| == |c.conns|
    ensures forall k :: 0 <= k < n ==> d.conns[k].freed == 1
  {
    hide Inv, Possible, After, Claims, Runs, Apart, Over, Enabled, Apply;
    if n == 0 {
      moves, d := [], c;
    } else {
      var first, m := EndConns(c, n - 1);
      SoundAt(m, n - 1);
      var run, e := ComesToItsEnd(m.conns[n - 1]);
      OverFreed(e);
      var rest;
      rest, d := Lift(m, n - 1, run, e);
      RunSound(m, rest, d);
      Longer(c, first, m, rest, d);
      moves := first + rest;
    }
  }

  lemma SoundAt(c: Client, k: nat)
    requires Sound(c) && k < |c.conns|
    ensures Inv(c.conns[k])
  {
    hide Inv, Claims, Apart;
  }

  /** Those who look for a connection give up. */
  lemma {:induction false} EndLooking(c: Client) returns (moves: seq<Move>, d: Client)
    ensures Moves(c, moves, d) && d.looking == {} && d.asked == c.asked && d.conns == c.conns
    decreases |c.looking|
  {
    if c.looking == {} {
      moves, d := [], c;
    } else {
      var s :| s in c.looking;
      assert c.looking == (c.looking - {s}) + {s};
      moves, d := EndLooking(After(c, NoConn(s)));
      MoveThen(c, NoConn(s), moves, d);
      moves := [NoConn(s)] + moves;
    }
  }

  /** From every reachable state all connections can come to be released with nobody looking for
      one; then every session that was ever asked for has been called once or was turned away. */
  lemma EndReachedByAll(pre: seq<Move>, c: Client) returns (run: seq<Move>, d: Client)
    requires Moves(START, pre, c)
    ensures Moves(c, run, d) && d.asked == c.asked && d.looking == {}
    ensures forall k :: 0 <= k < |d.conns| ==> d.conns[k].freed == 1
    ensures forall s :: Calls(d.conns, s) == One(s in d.asked && s !in d.rejected)
  {
    hide Inv, Possible, After, Claims, Moves, Sound, Calls;
    RunSound(START, pre, c) by { StartSound(); }
    var first, m := EndConns(c, |c.conns|);
    var rest;
    rest, d := EndLooking(m);
    Longer(c, first, m, rest, d);
    run := first + rest;
    Longer(START, pre, c, run, d);
    forall s ensures Calls(d.conns, s) == One(s in d.asked && s !in d.rejected) {
      CalledExactlyOnce(pre + run, d, s);
    }
  }

  lemma StartSound() ensures Sound(START) {}
}
