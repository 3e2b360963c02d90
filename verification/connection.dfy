/** The life of one client connection (src/kernel/communicator.cc) under every interleaving of
    callers in request, the poller thread of its descriptor and any number of handler threads,
    which may take the connection's results out of order.

    One action is one critical section, one unlocked store, or one call into the poller.  Of
    the poller only what PollerProtocol proves is used: each registration ends once. */
module Connection {
  import opened Common

  type Session = nat

  datatype ConnState = Connecting | Receiving | Success | Idle | Closing | Error

  datatype Op = Connect | Write | Read

  /** How a registration ends: FINISHED; ERROR, a deadline among others; DELETED or STOPPED. */
  datatype How = Done | Broken | Halted

  /** What session->handle is told. */
  datatype Verdict = CsSuccess | CsError | CsStopped

  /** The `state` that goes with a terminal result that is handled as a failure; a connection that
      the other side has closed is one. */
  ghost function StateOf(how: How): Verdict {
    match how
    case Done => CsError
    case Broken => CsError
    case Halted => CsStopped
  }

  /** What has become of the one registration of the descriptor, and who acts on its end. */
  datatype Reg =
    | NoReg
    | Launching
      // created by launch_conn, not registered yet
    | Live(op: Op)
      // registered in the poller
    | Piped(op: Op)
      // deleted, the DELETED result not called back yet
    | Ended(op: Op, how: How)
      // the terminal result is in the queue or at a handler before its lock
    | Sending
      // the handler of the finished connect sends the first message
    | Adding(direct: bool)
      // all is sent, a handler is about to register for reading
    | Failing(session: Session, direct: bool)
      // a handler is about to report failure to the session
    | Failed(direct: bool)
      // it has; `direct` releases the entry without looking at ref

  /** A complete reply: still with the poller thread (append_message has stored the state; has
      stored session->timeout; has deleted the node or set its timeout), queued, or at a handler
      that has read entry->session. */
  datatype Reply =
    | NoReply
    | Stored
    | Timed(keepAlive: int)
    | Settled(keepAlive: int)
    | Queued(keepAlive: int)
    | Taken(session: Session, keepAlive: int)

  /** A caller that holds entry->mutex in request_idle_conn. */
  datatype Caller = Nobody | Probing(session: Session) | Writing | Marking | Leaving

  datatype Conn = Conn(
    state: ConnState,
    ref: int,
    session: Session,
    listed: bool,        // in target->idle_list
    reading: bool,       // a reply message has been created
    reg: Reg,
    reply: Reply,
    caller: Caller,
    calling: set<Session>,   // handlers with a reference that are about to call session->handle
    dropping: nat,           // handlers about to drop their reference
    freed: nat,              // calls of __release_conn
    accepted: set<Session>,
    owed: Option<Session>,   // the session whose end nobody has taken on yet
    handled: multiset<Session>,  // calls of target->release and session->handle
    told: map<Session, Verdict>) // what those calls say, from when the handler knows it

  /** launch_conn */
  ghost function Launch(s: Session): Conn {
    Conn(Connecting, 1, s, false, false, Launching, NoReply, Nobody, {}, 0, 0, {}, None, multiset{}, map[])
  }

  datatype SendResult = Sent | Pending | Refused

  /** What mpoller_mod answers: done; ENOENT; another failure. */
  datatype Mod = Modified | Missing | Denied

  datatype Action =
    | Register(ok: bool)
      // poller thread and pipe
    | End(op: Op, how: How)
    | Delete
    | DrainPipe(op: Op)
    | CreateReply
    | RefuseReply
    | ReplyStores
    | ReplyTimes(keepAlive: int)
    | ReplySettles
    | ReplyCalls
      // handler threads
    | ConnectResult
    | SendFirst(result: SendResult)
    | AddRead(ok: bool)
    | WriteResult
    | TakeReply
    | LockReply
    | ReadResult
    | Answer(session: Session)
    | AnswerFailure
    | AfterFailure
    | Drop
      // callers
    | TakeIdle(session: Session)
    | Probe(session: Session, found: bool)
    | Send(result: SendResult, answer: Mod)
    | Mark
    | Unlock

  /** The poller thread is in append_message of this connection. */
  ghost predicate Appending(c: Conn) {
    c.reply.Stored? || c.reply.Timed? || c.reply.Settled?
  }

  ghost predicate Enabled(c: Conn, a: Action) {
    match a
    case Register(_) => c.reg.Launching?
    // what ends a registration runs in the same poller thread
    case End(op, _) => c.reg == Live(op) && !Appending(c)
    case Delete => c.reg.Live?
    case DrainPipe(op) => c.reg == Piped(op) && !Appending(c)
    // create_reply: a reply is expected ...
    case CreateReply => (c.reg.Live? || c.reg.Piped?) && c.reg.op.Read? && !c.reading && !Appending(c) && c.state.Receiving?
    // ... or not, though not while a caller holds the mutex of an idle entry
    case RefuseReply =>
      c.reg == Live(Read) && !c.reading && !Appending(c) && !c.state.Receiving? && (c.state.Idle? ==> c.caller.Nobody?)
    case ReplyStores => (c.reg.Live? || c.reg.Piped?) && c.reg.op.Read? && c.reading
    case ReplyTimes(_) => c.reply.Stored?
    case ReplySettles => c.reply.Timed?
    case ReplyCalls => c.reply.Settled?
    case ConnectResult => c.reg.Ended? && c.reg.op.Connect?
    case SendFirst(_) => c.reg.Sending?
    case AddRead(_) => c.reg.Adding?
    case WriteResult => c.reg.Ended? && c.reg.op.Write?
    case TakeReply => c.reply.Queued?
    case LockReply => c.reply.Taken?
    // needs entry->mutex
    case ReadResult => c.reg.Ended? && c.reg.op.Read? && c.caller.Nobody?
    case Answer(s) => s in c.calling
    case AnswerFailure => c.reg.Failing?
    case AfterFailure => c.reg.Failed? && (c.reg.direct || c.caller.Nobody?)
    case Drop => c.dropping > 0
    case TakeIdle(s) => c.listed && c.caller.Nobody? && s !in c.accepted
    // set_timeout finds the descriptor exactly if it is registered, and so does mod
    case Probe(s, found) => c.caller == Probing(s) && found == c.reg.Live?
    case Send(r, answer) => c.caller.Writing? && (answer.Missing? <==> !c.reg.Live?)
    case Mark => c.caller.Marking?
    case Unlock => c.caller.Leaving?
  }

  /** mpoller_del: a registration that has already ended is left alone. */
  ghost function Deleted(r: Reg): Reg {
    if r.Live? then Piped(r.op) else r
  }

  /** handle_incoming_reply, success branch: between lock and unlock. */
  ghost function Resolve(c: Conn): Conn
    requires c.reply.Taken?
  {
    var s := c.reply.session;
    var d := c.(reply := NoReply, calling := c.calling + {s}, owed := None, told := c.told[s := CsSuccess]);
    if !c.state.Success? then d
    else if c.reply.keepAlive != 0 then d.(ref := c.ref + 1, state := Idle, listed := true)
    else d.(ref := c.ref + 1, state := Closing)
  }

  /** handle_incoming_reply, the other branches: between lock and unlock. */
  ghost function Terminate(c: Conn): Conn
    requires c.reg.Ended?
  {
    var d := c.(reg := NoReg, reading := false);
    match c.state
    case Idle => d.(listed := false, dropping := c.dropping + 1)
    case Error => d.(calling := c.calling + {c.session}, owed := None, told := c.told[c.session := CsError])
    case Receiving =>
      d.(calling := c.calling + {c.session}, owed := None, told := c.told[c.session := StateOf(c.reg.how)])
    case Success => d.(state := Closing)
    case _ => d.(dropping := c.dropping + 1)
  }

  /** __sync_sub_and_fetch(&entry->ref, 1), and __release_conn at zero. */
  ghost function Dropped(c: Conn): Conn
    requires c.dropping > 0
  {
    c.(dropping := c.dropping - 1, ref := c.ref - 1, freed := c.freed + if c.ref == 1 then 1 else 0)
  }

  /** A handler is to report failure. */
  ghost function Fails(c: Conn, direct: bool, verdict: Verdict): Conn {
    c.(reg := Failing(c.session, direct), owed := None, told := c.told[c.session := verdict])
  }

  ghost function Apply(c: Conn, a: Action): Conn
    requires Enabled(c, a)
  {
    match a
    case Register(ok) =>
      if ok then c.(reg := Live(Connect), accepted := c.accepted + {c.session}, owed := Some(c.session))
      else c.(reg := NoReg, freed := c.freed + 1)
    case End(op, how) => c.(reg := Ended(op, how))
    case Delete => c.(reg := Deleted(c.reg))
    case DrainPipe(op) => c.(reg := Ended(op, Halted))
    case CreateReply => c.(reading := true)
    case RefuseReply => c.(reg := Ended(Read, Broken))
    case ReplyStores => c.(reading := false, state := Success, reply := Stored)
    case ReplyTimes(k) => c.(reply := Timed(k))
    case ReplySettles =>
      c.(reg := if c.reply.keepAlive == 0 then Deleted(c.reg) else c.reg, reply := Settled(c.reply.keepAlive))
    case ReplyCalls => c.(reply := Queued(c.reply.keepAlive))
    case ConnectResult => if c.reg.how.Done? then c.(reg := Sending) else Fails(c, true, StateOf(c.reg.how))
    case SendFirst(r) =>
      (match r
       case Sent => c.(state := Receiving, reg := Adding(true))
       case Pending => c.(reg := Live(Write))
       case Refused => Fails(c, true, CsError))
    case AddRead(ok) => if ok then c.(reg := Live(Read)) else Fails(c, c.reg.direct, CsError)
    case WriteResult =>
      if c.reg.how.Done? then c.(state := Receiving, reg := Adding(false)) else Fails(c, false, StateOf(c.reg.how))
    case TakeReply => c.(reply := Taken(c.session, c.reply.keepAlive))
    case LockReply => Resolve(c)
    case ReadResult => Terminate(c)
    case Answer(s) => c.(calling := c.calling - {s}, dropping := c.dropping + 1, handled := c.handled + multiset{s})
    case AnswerFailure => c.(reg := Failed(c.reg.direct), handled := c.handled + multiset{c.reg.session})
    case AfterFailure =>
      if c.reg.direct then c.(reg := NoReg, freed := c.freed + 1)
      else c.(reg := NoReg, dropping := c.dropping + 1)
    case Drop => Dropped(c)
    case TakeIdle(s) => c.(listed := false, caller := Probing(s))
    case Probe(s, found) =>
      if found then c.(caller := Writing, session := s, accepted := c.accepted + {s}, owed := Some(s))
      else c.(caller := Nobody, state := Closing)
    case Send(r, answer) =>
      (match r
       case Sent => c.(state := Receiving, caller := Leaving)
       case Pending =>
         (match answer
          case Modified => c.(reg := Live(Write), caller := Leaving)
          case Missing => c.(state := Receiving, caller := Leaving)
          case Denied => c.(reg := Deleted(c.reg), caller := Marking))
       case Refused => c.(reg := Deleted(c.reg), caller := Marking))
    case Mark => c.(state := Error, caller := Leaving)
    case Unlock => c.(caller := Nobody)
  }

  ghost predicate Runs(c: Conn, run: seq<Action>, d: Conn)
    decreases |run|
  {
    if run == [] then c == d
    else Enabled(c, run[0]) && Runs(Apply(c, run[0]), run[1..], d)
  }

  // ---------- the invariant ----------

  /** The live or ended registration and an unresolved reply share one reference. */
  ghost function Owners(c: Conn): nat {
    One(!c.reg.NoReg? || !c.reply.NoReply?) + |c.calling| + c.dropping
  }

  ghost predicate RefCounts(c: Conn) {
    if c.freed == 0 then c.ref == Owners(c) && c.ref > 0
    else c.freed == 1 && Owners(c) == 0
  }

  /** Where a session is: with the connection, with a handler about to call it, or called. */
  ghost function Places(c: Conn, s: Session): nat {
    One(c.owed == Some(s)) + One(s in c.calling) + One(c.reg.Failing? && c.reg.session == s) + c.handled[s]
  }

  ghost predicate SessionsKept(c: Conn) {
    && (forall s :: Places(c, s) == One(s in c.accepted))
    && (c.owed.Some? ==> c.owed == Some(c.session))
    && (c.caller.Probing? ==> c.caller.session !in c.accepted)
  }

  ghost predicate Fresh(c: Conn) { c.calling == {} && c.dropping == 0 }

  ghost predicate Free(c: Conn) { c.caller.Nobody? || c.caller.Leaving? }

  /** Which values of the connection's fields go together, by the state of its registration. */
  ghost predicate Shape(c: Conn) {
    match c.reg
    case NoReg => !c.listed && c.caller.Nobody? && c.owed.Some? == !c.reply.NoReply? && !Appending(c) && (c.owed.Some? ==> c.state.Closing?)
    case Launching => c.state.Connecting? && Quiet(c) && c.caller.Nobody? && c.owed.None? && Fresh(c) && c.accepted == {}
    case Sending => c.state.Connecting? && Quiet(c) && c.caller.Nobody? && c.owed.Some? && Fresh(c)
    case Adding(direct) =>
      c.state.Receiving? && Quiet(c) && Free(c) && c.owed.Some? && (direct ==> c.caller.Nobody? && Fresh(c))
    case Failing(_, direct) => Quiet(c) && Free(c) && c.owed.None? && (direct ==> c.caller.Nobody? && Fresh(c))
    case Failed(direct) => Quiet(c) && Free(c) && c.owed.None? && (direct ==> c.caller.Nobody? && Fresh(c))
    case _ =>
      match c.reg.op
      case Connect => c.state.Connecting? && Quiet(c) && c.caller.Nobody? && c.owed.Some? && Fresh(c)
      case Write => (c.state.Connecting? || c.state.Idle?) && Quiet(c) && Free(c) && c.owed.Some?
      case Read => ReadShape(c)
  }

  ghost predicate Quiet(c: Conn) { !c.listed && !c.reading && c.reply.NoReply? }

  ghost predicate ReadShape(c: Conn) {
    && (c.reading ==> c.state.Receiving?)
    && (c.state.Success? <==> !c.reply.NoReply?)
    && (Appending(c) ==> !c.reg.Ended?)
    && (c.listed ==> c.state.Idle?)
    && match c.state
       case Connecting => false
       case Receiving => c.owed.Some? && Free(c)
       case Success => c.owed.Some? && Free(c)
       case Error => c.owed.Some? && Free(c) && !c.reg.Live?
       case Closing => c.owed.None? && Free(c)
       case Idle =>
         match c.caller
         case Probing(_) => c.owed.None? && !c.listed
         case Writing => c.owed.Some? && !c.listed
         case Marking => c.owed.Some? && !c.listed && !c.reg.Live?
         case _ => c.owed.None? && c.listed
  }

  ghost predicate Inv(c: Conn) {
    RefCounts(c) && SessionsKept(c) && Shape(c) && (c.reply.Taken? ==> c.reply.session == c.session)
  }

  // ---------- each step keeps the invariant ----------

  ghost predicate ByPoller(a: Action) {
    a.Register? || a.End? || a.Delete? || a.DrainPipe? || a.CreateReply? || a.RefuseReply?
    || a.ReplyStores? || a.ReplyTimes? || a.ReplySettles? || a.ReplyCalls?
  }

  ghost predicate ByCaller(a: Action) {
    a.TakeIdle? || a.Probe? || a.Send? || a.Mark? || a.Unlock?
  }

  ghost predicate ByReader(a: Action) {
    a.TakeReply? || a.LockReply? || a.ReadResult? || a.Answer? || a.Drop?
  }

  lemma ShapeKeptByPoller(c: Conn, a: Action)
    requires Inv(c) && Enabled(c, a) && ByPoller(a)
    ensures Shape(Apply(c, a))
  {
    hide Places, Owners;
  }

  lemma ShapeKeptByCaller(c: Conn, a: Action)
    requires Inv(c) && Enabled(c, a) && ByCaller(a)
    ensures Shape(Apply(c, a))
  {
    hide Places, Owners;
  }

  lemma ShapeKeptByHandler(c: Conn, a: Action)
    requires Inv(c) && Enabled(c, a) && !ByPoller(a) && !ByCaller(a)
    ensures Shape(Apply(c, a))
  {
    hide RefCounts, SessionsKept;
    match a
    case ConnectResult =>
    case SendFirst(_) =>
    case AddRead(_) =>
    case WriteResult =>
    case AnswerFailure =>
    case AfterFailure =>
    case _ => ShapeKeptByReader(c, a);
  }

  lemma ShapeKeptByReader(c: Conn, a: Action)
    requires Inv(c) && Enabled(c, a) && ByReader(a)
    ensures Shape(Apply(c, a))
  {
    hide RefCounts, SessionsKept;
    match a
    case TakeReply =>
    case LockReply =>
    case ReadResult =>
    case Answer(_) =>
    case Drop =>
  }

  lemma RefCountsKept(c: Conn, a: Action)
    requires Inv(c) && Enabled(c, a) && (a.AfterFailure? || a.Register?)
    ensures RefCounts(Apply(c, a))
  {
    hide Places, SessionsKept;
  }

  /** All other steps leave the references and their owners alone. */
  ghost predicate SameRefs(c: Conn, d: Conn) {
    && d.ref == c.ref && d.freed == c.freed && d.calling == c.calling && d.dropping == c.dropping
    && (d.reg.NoReg? && d.reply.NoReply?) == (c.reg.NoReg? && c.reply.NoReply?)
  }

  lemma PollerKeepsRefs(c: Conn, a: Action)
    requires Shape(c) && Enabled(c, a) && ByPoller(a) && !a.Register?
    ensures SameRefs(c, Apply(c, a))
  {
  }

  lemma CallerKeepsRefs(c: Conn, a: Action)
    requires Shape(c) && Enabled(c, a) && ByCaller(a)
    ensures SameRefs(c, Apply(c, a))
  {
  }

  lemma HandlerKeepsRefs(c: Conn, a: Action)
    requires Shape(c) && Enabled(c, a) && !ByPoller(a) && !ByCaller(a) && !ByReader(a) && !a.AfterFailure?
    ensures SameRefs(c, Apply(c, a))
  {
  }

  lemma OwnersKept(c: Conn, a: Action)
    requires Inv(c) && Enabled(c, a) && !a.AfterFailure? && !a.Register? && !ByReader(a)
    ensures RefCounts(Apply(c, a))
  {
    hide SessionsKept, Owners, Shape, Apply, Enabled;
    if ByPoller(a) {
      PollerKeepsRefs(c, a);
    } else if ByCaller(a) {
      CallerKeepsRefs(c, a);
    } else {
      HandlerKeepsRefs(c, a);
    }
    SameOwners(c, Apply(c, a));
  }

  lemma SameOwners(c: Conn, d: Conn)
    requires d.calling == c.calling && d.dropping == c.dropping
    requires (d.reg.NoReg? && d.reply.NoReply?) == (c.reg.NoReg? && c.reply.NoReply?)
    ensures Owners(d) == Owners(c)
  {
  }

  lemma DropKeepsRef(c: Conn)
    requires Inv(c) && c.dropping > 0
    ensures RefCounts(Apply(c, Drop))
  {
    hide Places, SessionsKept, Shape;
  }

  lemma AnswerKeepsRef(c: Conn, s: Session)
    requires Inv(c) && s in c.calling
    ensures RefCounts(Apply(c, Answer(s)))
  {
    hide Places, SessionsKept, Shape;
    assert |c.calling| == |c.calling - {s}| + 1;
  }

  lemma ReplyKeepsRef(c: Conn)
    requires Inv(c) && c.reply.Taken?
    ensures RefCounts(Apply(c, LockReply))
  {
    hide Places, SessionsKept;
    CallingGrows(c);
  }

  lemma ResultKeepsRef(c: Conn)
    requires Inv(c) && Enabled(c, ReadResult)
    ensures RefCounts(Apply(c, ReadResult))
  {
    hide Places, SessionsKept;
    CallingGrows(c);
  }

  lemma RefCountsKeptByReader(c: Conn, a: Action)
    requires Inv(c) && Enabled(c, a) && ByReader(a)
    ensures RefCounts(Apply(c, a))
  {
    hide Places, SessionsKept, Shape, RefCounts;
    match a
    case Answer(s) => AnswerKeepsRef(c, s);
    case Drop => DropKeepsRef(c);
    case LockReply => ReplyKeepsRef(c);
    case ReadResult => ResultKeepsRef(c);
    case TakeReply => TakeKeepsRef(c);
  }

  lemma TakeKeepsRef(c: Conn)
    requires Inv(c) && c.reply.Queued?
    ensures RefCounts(Apply(c, TakeReply))
  {
    hide Places, SessionsKept;
  }

  lemma CallingGrows(c: Conn)
    requires SessionsKept(c)
    ensures c.owed.Some? ==> |c.calling + {c.session}| == |c.calling| + 1
  {
    if c.owed.Some? { NotCalling(c); }
  }

  /** The session the connection still owes is at no handler. */
  lemma NotCalling(c: Conn)
    requires SessionsKept(c) && c.owed.Some?
    ensures c.session !in c.calling && c.handled[c.session] == 0 && c.session in c.accepted
  {
    assert Places(c, c.session) == One(c.session in c.accepted);
  }

  lemma SessionsKeptByReader(c: Conn, a: Action)
    requires Inv(c) && Enabled(c, a) && ByReader(a)
    ensures SessionsKept(Apply(c, a))
  {
    hide RefCounts, Owners;
    var d := Apply(c, a);
    forall s ensures Places(d, s) == One(s in d.accepted) {
      assert Places(c, s) == One(s in c.accepted);
    }
  }

  /** What Places looks at. */
  ghost predicate SamePlaces(c: Conn, d: Conn) {
    && d.owed == c.owed && d.calling == c.calling && d.handled == c.handled && d.accepted == c.accepted && d.session == c.session
    && d.reg.Failing? == c.reg.Failing? && (c.reg.Failing? ==> d.reg == c.reg)
  }

  lemma SamePlacesKept(c: Conn, d: Conn)
    requires SessionsKept(c) && SamePlaces(c, d) && (d.caller.Probing? ==> d.caller.session !in d.accepted)
    ensures SessionsKept(d)
  {
    forall s ensures Places(d, s) == One(s in d.accepted) { assert Places(c, s) == One(s in c.accepted); }
  }

  lemma CallerKeepsPlaces(c: Conn, a: Action)
    requires Shape(c) && Enabled(c, a) && ByCaller(a) && (a.Probe? ==> !a.found)
    ensures SamePlaces(c, Apply(c, a))
    ensures Apply(c, a).caller.Probing? ==> a.TakeIdle? && Apply(c, a).caller.session !in c.accepted
  {
    match a
    case TakeIdle(_) =>
    case Probe(_, _) =>
    case Send(_, _) =>
    case Mark =>
    case Unlock =>
  }

  lemma FoundKeepsPlaces(c: Conn, s: Session)
    requires Inv(c) && Enabled(c, Probe(s, true))
    ensures SessionsKept(Apply(c, Probe(s, true)))
  {
    hide RefCounts, Owners;
    var d := Apply(c, Probe(s, true));
    forall x ensures Places(d, x) == One(x in d.accepted) { assert Places(c, x) == One(x in c.accepted); }
  }

  lemma SessionsKeptByCaller(c: Conn, a: Action)
    requires Inv(c) && Enabled(c, a) && ByCaller(a)
    ensures SessionsKept(Apply(c, a))
  {
    hide RefCounts, SessionsKept, Shape, Apply, Enabled, SamePlaces;
    if a.Probe? && a.found {
      FoundKeepsPlaces(c, a.session);
    } else {
      CallerKeepsPlaces(c, a);
      SameAccepted(c, Apply(c, a));
      SamePlacesKept(c, Apply(c, a));
    }
  }

  lemma SameAccepted(c: Conn, d: Conn)
    requires SamePlaces(c, d)
    ensures d.accepted == c.accepted
  {
  }

  lemma SessionsKeptByPoller(c: Conn, a: Action)
    requires Inv(c) && Enabled(c, a) && ByPoller(a)
    ensures SessionsKept(Apply(c, a))
  {
    hide RefCounts, Owners;
    var d := Apply(c, a);
    forall s ensures Places(d, s) == One(s in d.accepted) {
      assert Places(c, s) == One(s in c.accepted);
    }
  }

  lemma FailsKeepsPlaces(c: Conn, direct: bool, v: Verdict)
    requires SessionsKept(c) && c.owed.Some? && !c.reg.Failing? && !c.caller.Probing?
    ensures SessionsKept(Fails(c, direct, v))
  {
    var d := Fails(c, direct, v);
    forall s ensures Places(d, s) == One(s in d.accepted) { assert Places(c, s) == One(s in c.accepted); }
  }

  lemma AnsweredKeepsPlaces(c: Conn)
    requires Inv(c) && Enabled(c, AnswerFailure)
    ensures SessionsKept(Apply(c, AnswerFailure))
  {
    hide RefCounts, Owners;
    var d := Apply(c, AnswerFailure);
    forall s ensures Places(d, s) == One(s in d.accepted) { assert Places(c, s) == One(s in c.accepted); }
  }

  /** The handlers of connect and write results: they fail, or leave the sessions where they are. */
  lemma HandlerMoves(c: Conn, a: Action)
    requires Shape(c) && Enabled(c, a) && !ByReader(a) && !ByCaller(a) && !ByPoller(a) && !a.AnswerFailure?
    ensures (exists direct, v :: Apply(c, a) == Fails(c, direct, v)) || (SamePlaces(c, Apply(c, a)) && Apply(c, a).caller == c.caller)
    ensures !c.caller.Probing? && (!a.AfterFailure? ==> c.owed.Some? && !c.reg.Failing?)
    ensures a.AfterFailure? ==> SamePlaces(c, Apply(c, a))
  {
    match a
    case ConnectResult =>
    case SendFirst(_) =>
    case AddRead(_) =>
    case WriteResult =>
    case AfterFailure =>
  }

  lemma SessionsKeptByOthers(c: Conn, a: Action)
    requires Inv(c) && Enabled(c, a) && !ByReader(a) && !ByCaller(a) && !ByPoller(a)
    ensures SessionsKept(Apply(c, a))
  {
    hide RefCounts, SessionsKept, Shape, Apply, Enabled, SamePlaces, Fails;
    if a.AnswerFailure? {
      AnsweredKeepsPlaces(c);
    } else {
      HandlerMoves(c, a);
      if SamePlaces(c, Apply(c, a)) {
        HandlerCaller(c, a);
        SamePlacesKept(c, Apply(c, a));
      } else {
        var direct, v :| Apply(c, a) == Fails(c, direct, v);
        FailsKeepsPlaces(c, direct, v);
      }
    }
  }

  lemma HandlerCaller(c: Conn, a: Action)
    requires Enabled(c, a) && !ByReader(a) && !ByCaller(a) && !ByPoller(a)
    ensures Apply(c, a).caller == c.caller
  {
    match a
    case ConnectResult =>
    case SendFirst(_) =>
    case AddRead(_) =>
    case WriteResult =>
    case AfterFailure =>
    case AnswerFailure =>
  }

  lemma TakenKept(c: Conn, a: Action)
    requires Inv(c) && Enabled(c, a)
    ensures Apply(c, a).reply.Taken? ==> Apply(c, a).reply.session == Apply(c, a).session
  {
    hide RefCounts, SessionsKept;
    if Apply(c, a).reply.Taken? && !a.TakeReply? { StillTaken(c, a); }
  }

  lemma StillTaken(c: Conn, a: Action)
    requires Shape(c) && Enabled(c, a) && Apply(c, a).reply.Taken? && !a.TakeReply?
    ensures Apply(c, a).reply == c.reply && Apply(c, a).session == c.session
  {
    match a
    case Probe(_, _) =>
    case Send(_, _) =>
    case ReadResult =>
    case LockReply =>
    case _ =>
  }

  lemma StepKeeps(c: Conn, a: Action)
    requires Inv(c) && Enabled(c, a)
    ensures Inv(Apply(c, a))
  {
    hide RefCounts, SessionsKept, Shape, Apply, Enabled;
    TakenKept(c, a);
    if ByReader(a) {
      RefCountsKeptByReader(c, a);
      SessionsKeptByReader(c, a);
    } else {
      if a.AfterFailure? || a.Register? { RefCountsKept(c, a); } else { OwnersKept(c, a); }
      if ByCaller(a) {
        SessionsKeptByCaller(c, a);
      } else if ByPoller(a) {
        SessionsKeptByPoller(c, a);
      } else {
        SessionsKeptByOthers(c, a);
      }
    }
    if ByPoller(a) {
      ShapeKeptByPoller(c, a);
    } else if ByCaller(a) {
      ShapeKeptByCaller(c, a);
    } else {
      ShapeKeptByHandler(c, a);
    }
  }

  // ---------- what holds of every run ----------

  lemma LaunchInv(s: Session) ensures Inv(Launch(s)) {}

  lemma {:induction false} RunKeeps(c: Conn, run: seq<Action>, d: Conn)
    requires Inv(c) && Runs(c, run, d)
    ensures Inv(d)
    decreases |run|
  {
    hide Inv, Enabled, Apply;
    if run != [] {
      StepKeeps(c, run[0]);
      RunKeeps(Apply(c, run[0]), run[1..], d);
    }
  }

  /** The entry is released at most once; until then `ref` is the number of its owners, and
      afterwards nobody is left to take a step with it. */
  lemma ReleasedOnce(s: Session, run: seq<Action>, c: Conn)
    requires Runs(Launch(s), run, c)
    ensures c.freed <= 1
    ensures c.freed == 0 ==> c.ref == Owners(c) > 0
    ensures c.freed == 1 ==> forall a :: !Enabled(c, a)
  {
    hide Runs, Places;
    LaunchInv(s);
    RunKeeps(Launch(s), run, c);
  }

  /** The failure path of a connect releases the entry without counting down; it may, because
      it is the only owner. */
  lemma DirectReleaseIsLast(s: Session, run: seq<Action>, c: Conn)
    requires Runs(Launch(s), run, c) && c.reg.Failed? && c.reg.direct
    ensures c.ref == 1 && c.reply.NoReply? && c.calling == {} && c.dropping == 0 && c.caller.Nobody? && !c.listed
  {
    hide Runs, Places;
    LaunchInv(s);
    RunKeeps(Launch(s), run, c);
  }

  /** A session is called at most once, one that was not accepted never, and by the time the
      entry is released every accepted one has been called. */
  lemma HandledOnce(s: Session, run: seq<Action>, c: Conn, x: Session)
    requires Runs(Launch(s), run, c)
    ensures c.handled[x] <= One(x in c.accepted)
    ensures c.freed == 1 ==> c.handled[x] == One(x in c.accepted)
  {
    hide Runs;
    LaunchInv(s);
    RunKeeps(Launch(s), run, c);
    assert Places(c, x) == One(x in c.accepted);
  }

  /** A complete reply never finds an earlier one unresolved, and the handler that resolves it,
      late as it may be, has read the session the reply belongs to. */
  lemma OneReplyAtATime(s: Session, run: seq<Action>, c: Conn)
    requires Runs(Launch(s), run, c)
    ensures Enabled(c, ReplyStores) ==> c.reply.NoReply? && c.owed == Some(c.session)
    ensures Appending(c) ==> c.state.Success? && !c.listed && !Enabled(c, ReadResult) && !Enabled(c, TakeReply)
    ensures c.reply.Taken? ==> c.owed == Some(c.reply.session)
    ensures c.listed ==> c.owed.None? && c.reply.NoReply?
  {
    hide Runs, Places, Owners;
    LaunchInv(s);
    RunKeeps(Launch(s), run, c);
  }

  // ---------- what is still to be done ----------

  ghost function RegToDo(r: Reg): nat {
    match r
    case NoReg => 0
    case Launching => 100
    case Live(op) => if op.Connect? then 96 else if op.Write? then 80 else 16
    case Piped(op) => if op.Connect? then 94 else if op.Write? then 78 else 14
    case Ended(op, _) => if op.Connect? then 92 else if op.Write? then 76 else 12
    case Sending => 90
    case Adding(_) => 24
    case Failing(_, _) => 10
    case Failed(_) => 9
  }

  ghost function ReplyToDo(r: Reply): nat {
    match r
    case NoReply => 0
    case Stored => 11
    case Timed(_) => 10
    case Settled(_) => 8
    case Queued(_) => 5
    case Taken(_, _) => 4
  }

  ghost function CallerToDo(p: Caller): nat {
    match p
    case Nobody => 0
    case Probing(_) => 112
    case Writing => 110
    case Marking => 2
    case Leaving => 1
  }

  ghost function ReadToDo(state: ConnState, reading: bool): nat {
    if state.Receiving? then if reading then 28 else 30 else if reading then 15 else 0
  }

  /** What is still to be done, when no caller takes the connection again. */
  ghost function ToDo(c: Conn): nat {
    RegToDo(c.reg) + ReplyToDo(c.reply) + CallerToDo(c.caller) + ReadToDo(c.state, c.reading) + 2 * |c.calling| + c.dropping
  }

  lemma CallingMore(q: set<Session>, s: Session)
    ensures |q + {s}| <= |q| + 1
    ensures s in q ==> |q - {s}| == |q| - 1
  {
    if s in q {
      assert q + {s} == q && q == (q - {s}) + {s};
    } else {
      assert |q + {s}| == |q| + 1;
    }
  }

  lemma LockDoes(c: Conn)
    requires Enabled(c, LockReply)
    ensures ToDo(Apply(c, LockReply)) < ToDo(c)
  {
    hide RegToDo, CallerToDo, Terminate;
    CallingMore(c.calling, c.reply.session);
  }

  lemma ReadDoes(c: Conn)
    requires Enabled(c, ReadResult)
    ensures ToDo(Apply(c, ReadResult)) < ToDo(c)
  {
    hide RegToDo, CallerToDo, ReplyToDo, Resolve;
    EndedToDo(c.reg);
    CallingMore(c.calling, c.session);
  }

  lemma AnswerDoes(c: Conn, a: Action)
    requires Enabled(c, a) && (a.Answer? || a.Drop? || a.TakeReply?)
    ensures ToDo(Apply(c, a)) < ToDo(c)
  {
    hide RegToDo, CallerToDo, ReadToDo, Resolve, Terminate;
    match a
    case Answer(x) => CallingMore(c.calling, x);
    case Drop =>
    case TakeReply =>
  }

  lemma ReaderDoes(c: Conn, a: Action)
    requires Enabled(c, a) && ByReader(a)
    ensures ToDo(Apply(c, a)) < ToDo(c)
  {
    hide ToDo, Apply, Enabled;
    if a.LockReply? {
      LockDoes(c);
    } else if a.ReadResult? {
      ReadDoes(c);
    } else {
      AnswerDoes(c, a);
    }
  }

  lemma EndedToDo(r: Reg)
    ensures RegToDo(NoReg) == 0 && (r.Ended? ==> RegToDo(r) >= 12)
  {
  }

  lemma PollerDoes(c: Conn, a: Action)
    requires Enabled(c, a) && ByPoller(a)
    ensures ToDo(Apply(c, a)) < ToDo(c)
  {
    hide CallerToDo;
  }

  lemma CallerDoes(c: Conn, a: Action)
    requires Enabled(c, a) && ByCaller(a)
    ensures ToDo(Apply(c, a)) < ToDo(c) + 113 * One(a.TakeIdle?)
  {
    hide ReplyToDo, Resolve, Terminate, Dropped;
    match a
    case TakeIdle(_) =>
    case Probe(_, _) =>
    case Send(_, _) =>
    case Mark =>
    case Unlock =>
  }

  lemma HandlerDoes(c: Conn, a: Action)
    requires Enabled(c, a) && !ByReader(a) && !ByPoller(a) && !ByCaller(a)
    ensures ToDo(Apply(c, a)) < ToDo(c)
  {
    hide ReplyToDo, CallerToDo, Resolve, Terminate, Dropped;
    match a
    case ConnectResult =>
    case SendFirst(_) =>
    case AddRead(_) =>
    case WriteResult =>
    case AnswerFailure =>
    case AfterFailure =>
  }

  /** Every step leaves less to do, unless a caller takes the connection. */
  lemma ToDoFalls(c: Conn, a: Action)
    requires Enabled(c, a)
    ensures ToDo(Apply(c, a)) < ToDo(c) + 113 * One(a.TakeIdle?)
  {
    hide ToDo, Apply, Enabled;
    if ByReader(a) {
      ReaderDoes(c, a);
    } else if ByPoller(a) {
      PollerDoes(c, a);
    } else if ByCaller(a) {
      CallerDoes(c, a);
    } else {
      HandlerDoes(c, a);
    }
  }

  // ---------- every connection can come to its end ----------

  lemma {:induction false} Chain(c: Conn, r1: seq<Action>, m: Conn, r2: seq<Action>, d: Conn)
    requires Runs(c, r1, m) && Runs(m, r2, d)
    ensures Runs(c, r1 + r2, d)
    decreases |r1|
  {
    hide Enabled, Apply;
    if r1 == [] {
      assert r1 + r2 == r2;
    } else {
      Chain(Apply(c, r1[0]), r1[1..], m, r2, d);
      assert (r1 + r2)[1..] == r1[1..] + r2;
    }
  }

  ghost predicate Over(c: Conn) {
    c.reg.NoReg? && c.reply.NoReply? && c.caller.Nobody? && c.calling == {} && c.dropping == 0
  }

  /** A next step towards the end: handlers first, then the caller, then the registration. */
  ghost function Onward(c: Conn): Action
    requires !Over(c)
  {
    if c.dropping > 0 then Drop
    else if c.calling != {} then Answer(var s :| s in c.calling; s)
    else if c.reply.Stored? then ReplyTimes(0)
    else if c.reply.Timed? then ReplySettles
    else if c.reply.Settled? then ReplyCalls
    else if c.reply.Queued? then TakeReply
    else if c.reply.Taken? then LockReply
    else match c.caller
      case Probing(s) => Probe(s, c.reg.Live?)
      case Writing => Send(Sent, if c.reg.Live? then Modified else Missing)
      case Marking => Mark
      case Leaving => Unlock
      case Nobody => OnwardReg(c.reg)
  }

  ghost function OnwardReg(r: Reg): Action
    requires !r.NoReg?
  {
    match r
    case Launching => Register(true)
    case Live(op) => End(op, Broken)
    case Piped(op) => DrainPipe(op)
    case Ended(op, _) => if op.Connect? then ConnectResult else if op.Write? then WriteResult else ReadResult
    case Sending => SendFirst(Refused)
    case Adding(_) => AddRead(false)
    case Failing(_, _) => AnswerFailure
    case Failed(_) => AfterFailure
  }

  lemma OnwardEnabled(c: Conn)
    requires Inv(c) && !Over(c)
    ensures Enabled(c, Onward(c)) && c.accepted <= Apply(c, Onward(c)).accepted && !Onward(c).TakeIdle?
  {
    hide Places, Owners, RefCounts, SessionsKept;
  }

  lemma {:induction false} ComesToItsEnd(c: Conn) returns (run: seq<Action>, d: Conn)
    requires Inv(c)
    ensures Runs(c, run, d) && Over(d) && Inv(d) && c.accepted <= d.accepted
    ensures forall i :: 0 <= i < |run| ==> !run[i].TakeIdle?
    decreases ToDo(c)
  {
    hide Inv, Enabled, Apply, ToDo, Over, Onward;
    if Over(c) {
      run, d := [], c;
    } else {
      var a := Onward(c);
      OnwardEnabled(c);
      ToDoFalls(c, a);
      StepKeeps(c, a);
      run, d := ComesToItsEnd(Apply(c, a));
      assert ([a] + run)[1..] == run;
      run := [a] + run;
    }
  }

  lemma OverFreed(c: Conn)
    requires Inv(c) && Over(c)
    ensures c.freed == 1
  {
    hide SessionsKept, Shape;
  }

  /** From every reachable state the connection can run to its release, and then every session
      it accepted has been called exactly once. */
  lemma EndReached(s: Session, pre: seq<Action>, c: Conn) returns (run: seq<Action>, d: Conn)
    requires Runs(Launch(s), pre, c)
    ensures Runs(c, run, d) && d.freed == 1 && c.accepted <= d.accepted && d.handled == multiset(d.accepted)
  {
    hide Runs;
    LaunchInv(s);
    RunKeeps(Launch(s), pre, c);
    run, d := ComesToItsEnd(c);
    OverFreed(d);
    Chain(Launch(s), pre, c, run, d);
    forall x ensures d.handled[x] == multiset(d.accepted)[x] {
      HandledOnce(s, pre + run, d, x);
    }
  }

  // ---------- and it comes to that, whoever is scheduled ----------

  /** How often a caller takes the connection. */
  ghost function Takings(run: seq<Action>): nat {
    if run == [] then 0 else One(run[0].TakeIdle?) + Takings(run[1..])
  }

  /** So no run goes on for ever, unless callers take the connection again and again. */
  lemma {:induction false} RunsAreBounded(c: Conn, run: seq<Action>, d: Conn)
    requires Runs(c, run, d)
    ensures |run| + ToDo(d) <= ToDo(c) + 114 * Takings(run)
    decreases |run|
  {
    hide Enabled, Apply, ToDo;
    if run != [] {
      ToDoFalls(c, run[0]);
      RunsAreBounded(Apply(c, run[0]), run[1..], d);
    }
  }

  /** And wherever a run has come to, if no step is left but the taking by another caller,
      then the connection has been released and every session it accepted was called. */
  lemma QuietIsReleased(s: Session, run: seq<Action>, c: Conn)
    requires Runs(Launch(s), run, c)
    requires forall a :: Enabled(c, a) ==> a.TakeIdle?
    ensures c.freed == 1 && c.handled == multiset(c.accepted)
  {
    hide Runs, Inv, Enabled, Apply, Over, Onward, ToDo;
    LaunchInv(s);
    RunKeeps(Launch(s), run, c);
    if !Over(c) {
      OnwardEnabled(c);
    }
    OverFreed(c);
    forall x ensures c.handled[x] == multiset(c.accepted)[x] {
      HandledOnce(s, run, c, x);
    }
  }
}
