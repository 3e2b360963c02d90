/** What a client connection does, told by its history alone: by how registrations ended, what was
    sent, which replies were complete and how long they allowed the connection to be kept.  The
    verdict of each session->handle and the use of the idle list follow from that history, over
    every interleaving (src/kernel/communicator.cc:425-589, 656-791, 980-1019, 1349-1416). */
module ConnectionHistory {
  import opened Common
  import opened Connection

  datatype History = History(
    current: Session,             // the session that the connection was given last
    connected: bool,              // the connect registration has FINISHED
    whole: set<Session>,          // their message has been written entirely
    partly: set<Session>,         // their message was cut short by ENOENT from mpoller_mod
    fate: map<Session, Verdict>,  // how their request has ended
    kept: Option<int>,            // the keep-alive timeout of the last complete reply
    up: bool)                     // registered for reading, and nothing has happened to that

  ghost function Begin(s: Session): History {
    History(s, false, {}, {}, map[], None, false)
  }

  /** A registration or an attempt to send has failed, unless the request had ended before. */
  ghost function Lost(h: History, stopped: bool): History {
    if h.current in h.fate then h.(up := false)
    else h.(fate := h.fate[h.current := if stopped then CsStopped else CsError], up := false)
  }

  ghost function Note(h: History, a: Action): History {
    match a
    case End(op, how) =>
      if op.Connect? && how.Done? then h.(connected := true, up := false)
      else if op.Write? && how.Done? then h.(whole := h.whole + {h.current}, up := false)
      else Lost(h, how.Halted?)
    case DrainPipe(_) => Lost(h, true)
    case RefuseReply => Lost(h, false)
    case Delete => h.(up := false)
    case SendFirst(r) =>
      if r.Sent? then h.(whole := h.whole + {h.current}) else if r.Refused? then Lost(h, false) else h
    case AddRead(ok) => if ok then h.(up := true) else Lost(h, false)
    case Probe(s, found) => if found then h.(current := s) else h
    case Send(r, answer) =>
      if r.Sent? then h.(whole := h.whole + {h.current})
      else if r.Pending? && answer.Modified? then h.(up := false)
      else if r.Pending? && answer.Missing? then h.(partly := h.partly + {h.current})
      else h.(fate := h.fate[h.current := CsError], up := false)
    case ReplyStores => h.(fate := h.fate[h.current := CsSuccess])
    case ReplyTimes(k) => h.(kept := Some(k), up := h.up && k != 0)
    case _ => h
  }

  ghost function After(h: History, run: seq<Action>): History
    decreases |run|
  {
    if run == [] then h else After(Note(h, run[0]), run[1..])
  }

  // ---------- how the connection goes with its history ----------

  ghost predicate Undecided(h: History) { h.current !in h.fate }

  ghost predicate Decided(h: History, v: Verdict) { h.current in h.fate && h.fate[h.current] == v }

  ghost predicate Same(told: map<Session, Verdict>, fate: map<Session, Verdict>) {
    forall x | x in told :: x in fate && fate[x] == told[x]
  }

  ghost predicate Heard(handled: multiset<Session>, told: map<Session, Verdict>) {
    forall x | x in handled :: x in told
  }

  /** Handlers say what the history says. */
  ghost predicate ToldRight(c: Conn, h: History) {
    && Same(c.told, h.fate) && c.calling <= c.told.Keys && Heard(c.handled, c.told)
    && (c.reg.Failing? ==> c.reg.session in c.told)
    && (c.owed.Some? ==> h.current !in c.told)
  }

  /** A request that has ended had its message written entirely, if it ended with success. */
  ghost predicate Earned(h: History) {
    forall x | x in h.fate && h.fate[x] == CsSuccess :: h.connected && (x in h.whole || x in h.partly)
  }

  /** The request that no handler has taken on yet has ended as it must have by where it is. */
  ghost predicate OwedRight(c: Conn, h: History) {
    && (c.owed.None? && h.current in c.accepted ==> h.current in h.fate)
    && (c.reg.Launching? ==> Undecided(h))
    && (c.owed.Some? && (c.caller.Marking? || c.state.Error?) ==> Decided(h, CsError))
    && (c.owed.Some? && (c.state.Success? || c.reg.NoReg?) ==> Decided(h, CsSuccess))
    && (c.owed.Some? && !c.caller.Marking? && !c.state.Error? && !c.state.Success? && !c.reg.NoReg? ==>
          if c.reg.Ended? && (c.reg.op.Read? || !c.reg.how.Done?) then Decided(h, StateOf(c.reg.how)) else Undecided(h))
  }

  /** How far the first message has come, and the registration. */
  ghost predicate Progress(c: Conn, h: History) {
    match c.reg
    case Launching => !h.connected && !h.up
    case Sending => h.connected && h.current !in h.whole && !h.up
    case Adding(_) => h.connected && h.current in h.whole && !h.up
    case Live(op) => OpProgress(c, h, op)
    case Piped(op) => OpProgress(c, h, op) && !h.up
    case Ended(op, how) =>
      && !h.up
      && (op.Connect? ==> h.connected == how.Done? && h.current !in h.whole)
      && (op.Write? ==> h.connected && (how.Done? ==> h.current in h.whole))
      && (op.Read? ==> h.connected && (c.state.Receiving? ==> h.current in h.whole + h.partly))
    case NoReg => !h.up
    case Failing(_, _) => !h.up
    case Failed(_) => !h.up
  }

  ghost predicate OpProgress(c: Conn, h: History, op: Op) {
    && (op.Connect? ==> !h.connected && h.current !in h.whole && !h.up)
    && (op.Write? ==> h.connected && h.current !in h.whole && !h.up)
    && (op.Read? ==> h.connected && (c.state.Receiving? ==> h.current in h.whole + h.partly))
  }

  /** Only what is over has a whole message or an end: a new session has none. */
  ghost predicate NewOnes(c: Conn, h: History) {
    && h.current == c.session
    && h.fate.Keys + h.whole + h.partly <= c.accepted
    && (c.caller.Probing? ==> c.caller.session !in c.accepted)
    && (c.caller.Writing? ==> h.current !in h.whole)
    && (c.owed.Some? || !(c.reg.Launching? || c.reg.NoReg?) ==> h.current in c.accepted)
  }

  /** The idle list and the keep-alive timeout. */
  ghost predicate KeptRight(c: Conn, h: History) {
    && (c.reply.Timed? || c.reply.Settled? || c.reply.Queued? || c.reply.Taken? ==> h.kept == Some(c.reply.keepAlive))
    && (c.state.Idle? ==> h.kept.Some? && h.kept.value != 0)
    && (h.kept == Some(0) ==> Over0(c) && !h.up)
    && (h.up ==> c.reg == Live(Read))
  }

  /** After a reply that does not allow the connection to be kept. */
  ghost predicate Over0(c: Conn) {
    && (c.state.Success? || c.state.Closing?) && !c.listed && Free(c) && !c.reading && !c.reply.Stored?
    && (c.reg.NoReg? || c.reg == Live(Read) || c.reg == Piped(Read) || (c.reg.Ended? && c.reg.op.Read?))
    && (c.reg.Live? ==> c.reply.Timed?)
  }

  ghost predicate Agree(c: Conn, h: History) {
    ToldRight(c, h) && Earned(h) && OwedRight(c, h) && Progress(c, h) && NewOnes(c, h) && KeptRight(c, h)
  }

  lemma BeginAgrees(s: Session) ensures Agree(Launch(s), Begin(s)) {}

  lemma ProgressByPoller(c: Conn, h: History, a: Action)
    requires Shape(c) && Progress(c, h) && NewOnes(c, h) && KeptRight(c, h) && Enabled(c, a)
    requires ByPoller(a)
    ensures Progress(Apply(c, a), Note(h, a))
  {
    match a
    case Register(_) =>
    case End(_, _) =>
    case Delete =>
    case DrainPipe(_) =>
    case CreateReply =>
    case RefuseReply =>
    case ReplyStores =>
    case ReplyTimes(_) =>
    case ReplySettles =>
    case ReplyCalls =>
  }

  lemma ProgressByCaller(c: Conn, h: History, a: Action)
    requires Shape(c) && Progress(c, h) && NewOnes(c, h) && KeptRight(c, h) && Enabled(c, a)
    requires ByCaller(a)
    ensures Progress(Apply(c, a), Note(h, a))
  {
    match a
    case TakeIdle(_) =>
    case Probe(_, _) =>
    case Send(_, _) =>
    case Mark =>
    case Unlock =>
  }

  lemma ProgressByReader(c: Conn, h: History, a: Action)
    requires Shape(c) && Progress(c, h) && NewOnes(c, h) && KeptRight(c, h) && Enabled(c, a)
    requires ByReader(a)
    ensures Progress(Apply(c, a), Note(h, a))
  {
    match a
    case TakeReply =>
    case LockReply =>
    case ReadResult =>
    case Answer(_) =>
    case Drop =>
  }

  lemma ProgressByHandler(c: Conn, h: History, a: Action)
    requires Shape(c) && Progress(c, h) && NewOnes(c, h) && KeptRight(c, h) && Enabled(c, a)
    requires !ByPoller(a) && !ByCaller(a) && !ByReader(a)
    ensures Progress(Apply(c, a), Note(h, a))
  {
    match a
    case ConnectResult =>
    case SendFirst(_) =>
    case AddRead(_) =>
    case WriteResult =>
    case AnswerFailure =>
    case AfterFailure =>
  }

  lemma KeptRightByPoller(c: Conn, h: History, a: Action)
    requires Shape(c) && KeptRight(c, h) && Enabled(c, a)
    requires ByPoller(a)
    ensures KeptRight(Apply(c, a), Note(h, a))
  {
    match a
    case Register(_) =>
    case End(_, _) =>
    case Delete =>
    case DrainPipe(_) =>
    case CreateReply =>
    case RefuseReply =>
    case ReplyStores =>
    case ReplyTimes(_) =>
    case ReplySettles =>
    case ReplyCalls =>
  }

  lemma KeptRightByCaller(c: Conn, h: History, a: Action)
    requires Shape(c) && KeptRight(c, h) && Enabled(c, a)
    requires ByCaller(a)
    ensures KeptRight(Apply(c, a), Note(h, a))
  {
    match a
    case TakeIdle(_) =>
    case Probe(_, _) =>
    case Send(_, _) =>
    case Mark =>
    case Unlock =>
  }

  lemma KeptRightByReader(c: Conn, h: History, a: Action)
    requires Shape(c) && KeptRight(c, h) && Enabled(c, a)
    requires ByReader(a)
    ensures KeptRight(Apply(c, a), Note(h, a))
  {
    match a
    case TakeReply =>
    case LockReply =>
    case ReadResult =>
    case Answer(_) =>
    case Drop =>
  }

  lemma KeptRightByHandler(c: Conn, h: History, a: Action)
    requires Shape(c) && KeptRight(c, h) && Enabled(c, a)
    requires !ByPoller(a) && !ByCaller(a) && !ByReader(a)
    ensures KeptRight(Apply(c, a), Note(h, a))
  {
    match a
    case ConnectResult =>
    case SendFirst(_) =>
    case AddRead(_) =>
    case WriteResult =>
    case AnswerFailure =>
    case AfterFailure =>
  }

  lemma OwedRightByPoller(c: Conn, h: History, a: Action)
    requires Shape(c) && OwedRight(c, h) && NewOnes(c, h) && Enabled(c, a)
    requires ByPoller(a)
    ensures OwedRight(Apply(c, a), Note(h, a))
  {
    match a
    case Register(_) =>
    case End(_, _) =>
    case Delete =>
    case DrainPipe(_) =>
    case CreateReply =>
    case RefuseReply =>
    case ReplyStores =>
    case ReplyTimes(_) =>
    case ReplySettles =>
    case ReplyCalls =>
  }

  lemma OwedRightBySend(c: Conn, h: History, r: SendResult, answer: Mod)
    requires Shape(c) && OwedRight(c, h) && NewOnes(c, h) && Enabled(c, Send(r, answer))
    ensures OwedRight(Apply(c, Send(r, answer)), Note(h, Send(r, answer)))
  {
    match r
    case Sent =>
    case Pending =>
    case Refused =>
  }

  lemma OwedRightByCaller(c: Conn, h: History, a: Action)
    requires Shape(c) && OwedRight(c, h) && NewOnes(c, h) && Enabled(c, a)
    requires ByCaller(a)
    ensures OwedRight(Apply(c, a), Note(h, a))
  {
    match a
    case TakeIdle(_) =>
    case Probe(_, _) =>
    case Send(r, answer) => OwedRightBySend(c, h, r, answer);
    case Mark =>
    case Unlock =>
  }

  lemma OwedRightByReader(c: Conn, h: History, a: Action)
    requires Shape(c) && OwedRight(c, h) && NewOnes(c, h) && Enabled(c, a)
    requires ByReader(a)
    ensures OwedRight(Apply(c, a), Note(h, a))
  {
    match a
    case TakeReply =>
    case LockReply =>
    case ReadResult =>
    case Answer(_) =>
    case Drop =>
  }

  lemma OwedRightByHandler(c: Conn, h: History, a: Action)
    requires Shape(c) && OwedRight(c, h) && NewOnes(c, h) && Enabled(c, a)
    requires !ByPoller(a) && !ByCaller(a) && !ByReader(a)
    ensures OwedRight(Apply(c, a), Note(h, a))
  {
    match a
    case ConnectResult =>
    case SendFirst(_) =>
    case AddRead(_) =>
    case WriteResult =>
    case AnswerFailure =>
    case AfterFailure =>
  }

  /** What is decided for one more session, what one more is told, and both at once. */
  lemma AgreesMore(told: map<Session, Verdict>, fate: map<Session, Verdict>, x: Session)
    requires Same(told, fate)
    ensures x !in told ==> Same(told, fate[x := CsSuccess]) && Same(told, fate[x := CsError]) && Same(told, fate[x := CsStopped])
    ensures x in fate ==> Same(told[x := fate[x]], fate)
    ensures Same(told[x := CsError], fate[x := CsError]) && Same(told[x := CsStopped], fate[x := CsStopped])
  {
  }

  lemma HeardMore(handled: multiset<Session>, told: map<Session, Verdict>, x: Session, y: Session)
    requires Heard(handled, told)
    ensures Heard(handled, told[x := CsSuccess]) && Heard(handled, told[x := CsError]) && Heard(handled, told[x := CsStopped])
    ensures y in told ==> Heard(handled + multiset{y}, told)
  {
  }

  lemma NewIsUntold(c: Conn, h: History, x: Session)
    requires ToldRight(c, h) && NewOnes(c, h) && x !in c.accepted
    ensures x !in c.told
  {
  }

  lemma ToldRightByPoller(c: Conn, h: History, a: Action)
    requires Shape(c) && ToldRight(c, h) && OwedRight(c, h) && NewOnes(c, h) && Enabled(c, a)
    requires ByPoller(a)
    ensures ToldRight(Apply(c, a), Note(h, a))
  {
    hide Same, Heard;
    if c.accepted == {} { NewIsUntold(c, h, h.current); }
    AgreesMore(c.told, h.fate, h.current);
    HeardMore(c.handled, c.told, h.current, h.current);
    match a
    case Register(_) =>
    case End(_, _) =>
    case Delete =>
    case DrainPipe(_) =>
    case CreateReply =>
    case RefuseReply =>
    case ReplyStores =>
    case ReplyTimes(_) =>
    case ReplySettles =>
    case ReplyCalls =>
  }

  lemma ToldRightBySend(c: Conn, h: History, r: SendResult, answer: Mod)
    requires Shape(c) && ToldRight(c, h) && OwedRight(c, h) && NewOnes(c, h) && Enabled(c, Send(r, answer))
    ensures ToldRight(Apply(c, Send(r, answer)), Note(h, Send(r, answer)))
  {
    hide Same, Heard;
    AgreesMore(c.told, h.fate, h.current);
    match r
    case Sent =>
    case Pending =>
    case Refused =>
  }

  lemma ToldRightByCaller(c: Conn, h: History, a: Action)
    requires Shape(c) && ToldRight(c, h) && OwedRight(c, h) && NewOnes(c, h) && Enabled(c, a)
    requires ByCaller(a)
    ensures ToldRight(Apply(c, a), Note(h, a))
  {
    hide Same, Heard;
    if a.Probe? { NewIsUntold(c, h, a.session); }
    AgreesMore(c.told, h.fate, h.current);
    HeardMore(c.handled, c.told, h.current, h.current);
    match a
    case TakeIdle(_) =>
    case Probe(_, _) =>
    case Send(r, answer) => ToldRightBySend(c, h, r, answer);
    case Mark =>
    case Unlock =>
  }

  lemma ToldRightByLock(c: Conn, h: History)
    requires ToldRight(c, h) && OwedRight(c, h) && Shape(c) && NewOnes(c, h)
    requires Enabled(c, LockReply) && c.reply.session == c.session
    ensures ToldRight(Apply(c, LockReply), Note(h, LockReply))
  {
    hide Same, Heard;
    AgreesMore(c.told, h.fate, h.current);
    HeardMore(c.handled, c.told, h.current, h.current);
  }

  lemma ToldRightByEnd(c: Conn, h: History)
    requires ToldRight(c, h) && OwedRight(c, h) && Shape(c) && NewOnes(c, h) && Enabled(c, ReadResult)
    ensures ToldRight(Apply(c, ReadResult), Note(h, ReadResult))
  {
    hide Same, Heard, Resolve;
    AgreesMore(c.told, h.fate, h.current);
    HeardMore(c.handled, c.told, h.current, h.current);
  }

  lemma ToldRightByReader(c: Conn, h: History, a: Action)
    requires Shape(c) && ToldRight(c, h) && OwedRight(c, h) && NewOnes(c, h) && Enabled(c, a)
    requires ByReader(a) && (c.reply.Taken? ==> c.reply.session == c.session)
    ensures ToldRight(Apply(c, a), Note(h, a))
  {
    hide Same, Heard, Shape, OwedRight, NewOnes, Resolve, Terminate;
    match a
    case TakeReply =>
    case LockReply => ToldRightByLock(c, h);
    case ReadResult => ToldRightByEnd(c, h);
    case Answer(x) => HeardMore(c.handled, c.told, x, x);
    case Drop =>
  }

  lemma ToldRightByHandler(c: Conn, h: History, a: Action)
    requires Shape(c) && ToldRight(c, h) && OwedRight(c, h) && NewOnes(c, h) && Enabled(c, a)
    requires !ByPoller(a) && !ByCaller(a) && !ByReader(a)
    ensures ToldRight(Apply(c, a), Note(h, a))
  {
    hide Same, Heard;
    AgreesMore(c.told, h.fate, h.current);
    HeardMore(c.handled, c.told, h.current, if c.reg.Failing? then c.reg.session else h.current);
    match a
    case ConnectResult =>
    case SendFirst(_) =>
    case AddRead(_) =>
    case WriteResult =>
    case AnswerFailure =>
    case AfterFailure =>
  }

  lemma NewOnesByPoller(c: Conn, h: History, a: Action)
    requires Shape(c) && NewOnes(c, h) && Progress(c, h) && Enabled(c, a) && ByPoller(a)
    ensures NewOnes(Apply(c, a), Note(h, a))
  {
    match a
    case Register(_) =>
    case End(_, _) =>
    case Delete =>
    case DrainPipe(_) =>
    case CreateReply =>
    case RefuseReply =>
    case ReplyStores =>
    case ReplyTimes(_) =>
    case ReplySettles =>
    case ReplyCalls =>
  }

  lemma NewOnesBySend(c: Conn, h: History, r: SendResult, answer: Mod)
    requires Shape(c) && NewOnes(c, h) && Progress(c, h) && Enabled(c, Send(r, answer))
    ensures NewOnes(Apply(c, Send(r, answer)), Note(h, Send(r, answer)))
  {
    match r
    case Sent =>
    case Pending =>
    case Refused =>
  }

  lemma NewOnesByCaller(c: Conn, h: History, a: Action)
    requires Shape(c) && NewOnes(c, h) && Progress(c, h) && Enabled(c, a) && ByCaller(a)
    ensures NewOnes(Apply(c, a), Note(h, a))
  {
    match a
    case TakeIdle(_) =>
    case Probe(_, _) =>
    case Send(r, answer) => NewOnesBySend(c, h, r, answer);
    case Mark =>
    case Unlock =>
  }

  lemma NewOnesByReader(c: Conn, h: History, a: Action)
    requires Shape(c) && NewOnes(c, h) && Progress(c, h) && Enabled(c, a) && ByReader(a)
    ensures NewOnes(Apply(c, a), Note(h, a))
  {
    match a
    case TakeReply =>
    case LockReply =>
    case ReadResult =>
    case Answer(_) =>
    case Drop =>
  }

  lemma NewOnesByHandler(c: Conn, h: History, a: Action)
    requires Shape(c) && NewOnes(c, h) && Progress(c, h) && Enabled(c, a) && !ByPoller(a) && !ByCaller(a) && !ByReader(a)
    ensures NewOnes(Apply(c, a), Note(h, a))
  {
    match a
    case ConnectResult =>
    case SendFirst(_) =>
    case AddRead(_) =>
    case WriteResult =>
    case AnswerFailure =>
    case AfterFailure =>
  }

  lemma EarnedKept(c: Conn, h: History, a: Action)
    requires Shape(c) && Earned(h) && Progress(c, h) && Enabled(c, a)
    ensures Earned(Note(h, a))
  {
    match a
    case Register(_) =>
    case End(_, _) =>
    case Delete =>
    case DrainPipe(_) =>
    case CreateReply =>
    case RefuseReply =>
    case ReplyStores =>
    case ReplyTimes(_) =>
    case ReplySettles =>
    case ReplyCalls =>
    case TakeIdle(_) =>
    case Probe(_, _) =>
    case Send(_, _) =>
    case Mark =>
    case Unlock =>
    case TakeReply =>
    case LockReply =>
    case ReadResult =>
    case Answer(_) =>
    case Drop =>
    case ConnectResult =>
    case SendFirst(_) =>
    case AddRead(_) =>
    case WriteResult =>
    case AnswerFailure =>
    case AfterFailure =>
  }

  lemma StepAgrees(c: Conn, h: History, a: Action)
    requires Inv(c) && Agree(c, h) && Enabled(c, a)
    ensures Agree(Apply(c, a), Note(h, a))
  {
    hide RefCounts, SessionsKept, Shape, Apply, Enabled, Note, Progress, KeptRight, OwedRight, ToldRight, NewOnes, Earned;
    EarnedKept(c, h, a);
    if ByPoller(a) {
      ProgressByPoller(c, h, a);
      KeptRightByPoller(c, h, a);
      OwedRightByPoller(c, h, a);
      ToldRightByPoller(c, h, a);
      NewOnesByPoller(c, h, a);
    } else if ByCaller(a) {
      ProgressByCaller(c, h, a);
      KeptRightByCaller(c, h, a);
      OwedRightByCaller(c, h, a);
      ToldRightByCaller(c, h, a);
      NewOnesByCaller(c, h, a);
    } else if ByReader(a) {
      ProgressByReader(c, h, a);
      KeptRightByReader(c, h, a);
      OwedRightByReader(c, h, a);
      ToldRightByReader(c, h, a);
      NewOnesByReader(c, h, a);
    } else {
      ProgressByHandler(c, h, a);
      KeptRightByHandler(c, h, a);
      OwedRightByHandler(c, h, a);
      ToldRightByHandler(c, h, a);
      NewOnesByHandler(c, h, a);
    }
  }

  lemma {:induction false} RunAgrees(c: Conn, h: History, run: seq<Action>, d: Conn)
    requires Inv(c) && Agree(c, h) && Runs(c, run, d)
    ensures Inv(d) && Agree(d, After(h, run))
    decreases |run|
  {
    hide Inv, Agree, Apply, Enabled, Note;
    if run != [] {
      StepKeeps(c, run[0]);
      StepAgrees(c, h, run[0]);
      RunAgrees(Apply(c, run[0]), Note(h, run[0]), run[1..], d);
    }
  }

  // ---------- what holds of every run ----------

  /** session->handle tells a session exactly how its request ended: success if and only if a
      complete reply was stored for it, and otherwise whether something was stopped or failed, the
      connect, the sending, a registration or the reading. */
  lemma Verdicts(s: Session, run: seq<Action>, c: Conn, x: Session)
    requires Runs(Launch(s), run, c) && (x in c.handled || x in c.calling)
    ensures x in c.told && x in After(Begin(s), run).fate && c.told[x] == After(Begin(s), run).fate[x]
  {
    hide Runs, Inv, OwedRight, Progress, NewOnes, KeptRight, Earned, After;
    LaunchInv(s);
    BeginAgrees(s);
    RunAgrees(Launch(s), Begin(s), run, c);
  }

  /** Who is told of success has had its connection established and its message written entirely,
      but for a message that an ENOENT from mpoller_mod had cut short. */
  lemma SuccessEarned(s: Session, run: seq<Action>, c: Conn, x: Session)
    requires Runs(Launch(s), run, c) && x in c.told && c.told[x] == CsSuccess
    ensures var h := After(Begin(s), run); h.connected && (x in h.whole || x in h.partly)
  {
    hide Runs, Inv, OwedRight, Progress, NewOnes, KeptRight, After;
    LaunchInv(s);
    BeginAgrees(s);
    RunAgrees(Launch(s), Begin(s), run, c);
  }

  /** A first message is sent only on a connection whose connect has FINISHED; and a registration for
      reading is made only after the whole message is out, for a request that has not ended. */
  lemma SentInTurn(s: Session, run: seq<Action>, c: Conn, a: Action)
    requires Runs(Launch(s), run, c) && Enabled(c, a)
    ensures var h := After(Begin(s), run);
      && (a.SendFirst? || a.Send? ==> h.connected && h.current !in h.whole)
      && (a.AddRead? ==> h.connected && h.current in h.whole && h.current !in h.fate)
      && (a.End? && a.op.Write? ==> h.current !in h.whole)
  {
    hide Runs, RefCounts, SessionsKept, After;
    LaunchInv(s);
    BeginAgrees(s);
    RunAgrees(Launch(s), Begin(s), run, c);
  }

  /** A connection is on the idle list only if its last complete reply allows it to be kept; and as
      long as nothing has happened to its registration, the next caller finds that. */
  lemma ListedIsKept(s: Session, run: seq<Action>, c: Conn)
    requires Runs(Launch(s), run, c) && c.listed
    ensures var h := After(Begin(s), run); h.kept.Some? && h.kept.value != 0 && (h.up ==> c.reg == Live(Read))
  {
    hide Runs, RefCounts, SessionsKept, After;
    LaunchInv(s);
    BeginAgrees(s);
    RunAgrees(Launch(s), Begin(s), run, c);
  }

  /** A reply that allows the connection to be kept puts it on the idle list, for the next caller to
      take, when a handler resolves it before the connection has ended. */
  lemma KeptIsListed(s: Session, run: seq<Action>, c: Conn)
    requires Runs(Launch(s), run, c) && Enabled(c, LockReply) && c.state.Success? && After(Begin(s), run).kept != Some(0)
    ensures Apply(c, LockReply).listed
    ensures c.caller.Nobody? ==> forall x | x !in c.accepted :: Enabled(Apply(c, LockReply), TakeIdle(x))
  {
    hide Runs, RefCounts, SessionsKept, After;
    LaunchInv(s);
    BeginAgrees(s);
    RunAgrees(Launch(s), Begin(s), run, c);
  }

  /** After a reply that does not, the registration is given up before any other thread hears of the
      reply, and the connection is never listed or taken again. */
  lemma NeverTakenAgain(s: Session, pre: seq<Action>, c: Conn, run: seq<Action>, d: Conn)
    requires Runs(Launch(s), pre, c) && After(Begin(s), pre).kept == Some(0) && Runs(c, run, d)
    ensures !d.listed && forall x :: !Enabled(d, TakeIdle(x))
    ensures d.reg.Live? ==> d.reply.Timed?
  {
    hide Runs, Inv, Agree, After, Apply, Note;
    LaunchInv(s);
    BeginAgrees(s);
    RunAgrees(Launch(s), Begin(s), pre, c);
    RunAgrees(c, After(Begin(s), pre), run, d);
    StaysZero(c, After(Begin(s), pre), run, d);
    ZeroIsOver(d, After(After(Begin(s), pre), run));
  }

  lemma ZeroIsOver(c: Conn, h: History)
    requires Agree(c, h) && h.kept == Some(0)
    ensures Over0(c)
  {
    hide OwedRight, Progress, NewOnes, ToldRight, Earned;
  }

  lemma NoMoreReplies(c: Conn, h: History, a: Action)
    requires KeptRight(c, h) && Enabled(c, a) && h.kept == Some(0)
    ensures Note(h, a).kept == Some(0)
  {
  }

  lemma {:induction false} StaysZero(c: Conn, h: History, run: seq<Action>, d: Conn)
    requires Inv(c) && Agree(c, h) && h.kept == Some(0) && Runs(c, run, d)
    ensures After(h, run).kept == Some(0)
    decreases |run|
  {
    hide Inv, Apply, Enabled, Note, OwedRight, Progress, NewOnes, ToldRight, Earned, KeptRight;
    if run != [] {
      StepKeeps(c, run[0]);
      StepAgrees(c, h, run[0]);
      NoMoreReplies(c, h, run[0]);
      StaysZero(Apply(c, run[0]), Note(h, run[0]), run[1..], d);
    }
  }

  // ---------- a reply to half a message ----------

  lemma Further(c: Conn, run: seq<Action>, d: Conn, a: Action)
    requires Runs(c, run, d) && Enabled(d, a)
    ensures Runs(c, run + [a], Apply(d, a))
  {
    hide Apply, Enabled;
    assert Runs(Apply(d, a), [a][1..], Apply(d, a));
    Chain(c, run, d, [a], Apply(d, a));
  }

  lemma {:induction false} AfterMore(h: History, run: seq<Action>, a: Action)
    ensures After(h, run + [a]) == Note(After(h, run), a)
    decreases |run|
  {
    hide Note;
    if run == [] {
      assert [a][1..] == [];
    } else {
      assert (run + [a])[1..] == run[1..] + [a];
      AfterMore(Note(h, run[0]), run[1..], a);
    }
  }

  /** One step more of a run and of its history. */
  lemma Onto(s: Session, run: seq<Action>, c: Conn, h: History, a: Action)
    requires Runs(Launch(s), run, c) && After(Begin(s), run) == h && Enabled(c, a)
    ensures Runs(Launch(s), run + [a], Apply(c, a)) && After(Begin(s), run + [a]) == Note(h, a)
  {
    hide Runs, After, Apply, Enabled, Note;
    Further(Launch(s), run, c, a);
    AfterMore(Begin(s), run, a);
  }

  lemma Go(s: Session, run: seq<Action>, c: Conn, h: History, a: Action) returns (run': seq<Action>, c': Conn, h': History)
    requires Runs(Launch(s), run, c) && After(Begin(s), run) == h && Enabled(c, a)
    ensures Runs(Launch(s), run', c') && After(Begin(s), run') == h' && c' == Apply(c, a) && h' == Note(h, a)
  {
    hide Runs, After, Apply, Enabled, Note;
    Onto(s, run, c, h, a);
    run', c', h' := run + [a], Apply(c, a), Note(h, a);
  }

  lemma Nothing(s: Session) ensures Runs(Launch(s), [], Launch(s)) && After(Begin(s), []) == Begin(s) {}

  /** A request has been sent and its reply is expected. */
  ghost predicate Expecting(c: Conn, h: History, x: Session) {
    && c.state.Receiving? && c.reply.NoReply? && !c.reading && c.caller.Nobody?
    && c.session == x == h.current
  }

  lemma FirstSent(s: Session) returns (run: seq<Action>, c: Conn, h: History)
    ensures Runs(Launch(s), run, c) && After(Begin(s), run) == h
    ensures c.reg == Live(Read) && Expecting(c, h, s) && c.accepted == {s} && h.whole == {s}
  {
    hide Runs, After;
    run, c, h := [], Launch(s), Begin(s);
    Nothing(s);
    run, c, h := Go(s, run, c, h, Register(true));
    run, c, h := Go(s, run, c, h, End(Connect, Done));
    run, c, h := Go(s, run, c, h, ConnectResult);
    run, c, h := Go(s, run, c, h, SendFirst(Sent));
    run, c, h := Go(s, run, c, h, AddRead(true));
  }

  lemma ReplyStored(s: Session, run: seq<Action>, c: Conn, h: History, x: Session) returns (run': seq<Action>, c': Conn, h': History)
    requires Runs(Launch(s), run, c) && After(Begin(s), run) == h && Expecting(c, h, x)
    requires c.reg == Live(Read) || c.reg == Piped(Read)
    ensures Runs(Launch(s), run', c') && After(Begin(s), run') == h'
    ensures c' == c.(state := Success, reply := Timed(1)) && h'.whole == h.whole && h'.current == x
  {
    hide Runs, After;
    run', c', h' := Go(s, run, c, h, CreateReply);
    run', c', h' := Go(s, run', c', h', ReplyStores);
    run', c', h' := Go(s, run', c', h', ReplyTimes(1));
  }

  lemma ReplyResolved(s: Session, run: seq<Action>, c: Conn, h: History) returns (run': seq<Action>, c': Conn, h': History)
    requires Runs(Launch(s), run, c) && After(Begin(s), run) == h
    requires c.state.Success? && c.reply == Timed(1) && c.caller.Nobody?
    ensures Runs(Launch(s), run', c') && After(Begin(s), run') == h'
    ensures c' == Resolve(c.(reply := Taken(c.session, 1))) && h'.whole == h.whole && h'.current == h.current
  {
    hide Runs, After;
    run', c', h' := Go(s, run, c, h, ReplySettles);
    run', c', h' := Go(s, run', c', h', ReplyCalls);
    run', c', h' := Go(s, run', c', h', TakeReply);
    run', c', h' := Go(s, run', c', h', LockReply);
  }

  lemma IdleTaken(s: Session, run: seq<Action>, c: Conn, h: History, x: Session) returns (run': seq<Action>, c': Conn, h': History)
    requires Runs(Launch(s), run, c) && After(Begin(s), run) == h
    requires c.listed && c.reg == Live(Read) && c.caller.Nobody? && x !in c.accepted
    ensures Runs(Launch(s), run', c') && After(Begin(s), run') == h'
    ensures c' == c.(listed := false, caller := Writing, session := x, accepted := c.accepted + {x}, owed := Some(x))
    ensures h'.whole == h.whole && h'.current == x
  {
    hide Runs, After;
    run', c', h' := Go(s, run, c, h, TakeIdle(x));
    run', c', h' := Go(s, run', c', h', Probe(x, true));
  }

  lemma SentHalf(s: Session, run: seq<Action>, c: Conn, h: History) returns (run': seq<Action>, c': Conn, h': History)
    requires Runs(Launch(s), run, c) && After(Begin(s), run) == h
    requires c.caller.Writing? && c.reg == Live(Read)
    ensures Runs(Launch(s), run', c') && After(Begin(s), run') == h'
    ensures c' == c.(reg := Piped(Read), state := Receiving, caller := Nobody) && h'.whole == h.whole && h'.current == h.current
  {
    hide Runs, After;
    run', c', h' := Go(s, run, c, h, Delete);
    run', c', h' := Go(s, run', c', h', Send(Pending, Missing));
    run', c', h' := Go(s, run', c', h', Unlock);
  }

  /** The exception of SuccessEarned can be reached: the registration is deleted while a caller sends
      on the kept connection, half of the message goes out, and the other side replies to that before
      the poller thread has read its pipe. */
  lemma ReplyToHalf(s: Session, x: Session) returns (run: seq<Action>, c: Conn)
    requires s != x
    ensures Runs(Launch(s), run, c) && x in c.told && c.told[x] == CsSuccess && x !in After(Begin(s), run).whole
  {
    hide Runs, After, Apply, Enabled, Note;
    var h;
    run, c, h := FirstSent(s);
    run, c, h := ReplyStored(s, run, c, h, s);
    run, c, h := ReplyResolved(s, run, c, h);
    run, c, h := IdleTaken(s, run, c, h, x);
    run, c, h := SentHalf(s, run, c, h);
    run, c, h := ReplyStored(s, run, c, h, x);
    run, c, h := ReplyResolved(s, run, c, h);
  }
}
