/** The message queue (src/kernel/msgqueue.cc) under every interleaving of any number of threads
    and its two locks: it behaves as one sequence, at whose end messages are put, at whose front
    msgqueue_put_head adds, and from whose front messages are taken. */
module QueueProtocol {
  import opened Common

  type Msg = nat

  /** What the holder of get_mutex is doing. */
  datatype Getter =
    | NoGetter
    | Emptied             // msgqueue_get has found the get list empty, about to swap
    | Ready               // msgqueue_get is about to take the first message
    | Prepending(msg: Msg)  // msgqueue_put_head has released put_mutex

  /** What the holder of put_mutex is doing between two steps. */
  datatype Putter =
    | NoPutter
    | FoundFull(msg: Msg)   // msgqueue_put_head has seen messages in the get list
    | FoundEmpty(msg: Msg)  // msgqueue_put_head has seen none, and room

  datatype State = State(
    max: nat,
    nonblock: bool,
    get: seq<Msg>,
    put: seq<Msg>,
    getter: Getter,
    putter: Putter,
    /** messages of callers that wait in msgqueue_put_head for room, having released put_mutex */
    waiting: multiset<Msg>,
    entered: multiset<Msg>,  // given to put or put_head
    taken: seq<Msg>)         // returned by msgqueue_get, oldest first

  function Empty(max: nat): State {
    State(max, false, [], [], NoGetter, NoPutter, multiset{}, multiset{}, [])
  }

  predicate Full(s: State) {
    |s.put| == s.max && !s.nonblock
  }

  datatype Action =
    | Put(msg: Msg)
    | HeadLooks(msg: Msg)    // put_mutex taken, *get_head read
    | HeadLooksAgain         // try_lock of get_mutex has failed, *get_head read again
    | HeadLocks              // try_lock of get_mutex succeeds
    | HeadPrepends           // the message goes to the front of the get list
    | HeadWrites             // the message goes to the front of the put list
    | HeadWakes(msg: Msg)    // the same after a wait
    | GetEnters
    | GetSwaps
    | GetTakes
    | SetNonblock(on: bool)

  predicate Enabled(s: State, a: Action) {
    match a
    case Put(m) => s.putter.NoPutter? && !Full(s)
    case HeadLooks(m) => s.putter.NoPutter?
    case HeadLooksAgain => s.putter.FoundFull? && !s.getter.NoGetter?
    case HeadLocks => s.putter.FoundFull? && s.getter.NoGetter?
    case HeadPrepends => s.getter.Prepending?
    case HeadWrites => s.putter.FoundEmpty?
    case HeadWakes(m) => s.putter.NoPutter? && m in s.waiting && !Full(s)
    case GetEnters => s.getter.NoGetter?
    case GetSwaps => s.getter.Emptied? && s.putter.NoPutter? && (s.put != [] || s.nonblock)
    case GetTakes => s.getter.Ready?
    case SetNonblock(_) => true
  }

  function Look(s: State, m: Msg): State {
    if s.get != [] then s.(putter := FoundFull(m))
    else if Full(s) then s.(putter := NoPutter, waiting := s.waiting + multiset{m})
    else s.(putter := FoundEmpty(m))
  }

  function Apply(s: State, a: Action): State
    requires Enabled(s, a)
  {
    match a
    case Put(m) => s.(put := s.put + [m], entered := s.entered + multiset{m})
    case HeadLooks(m) => Look(s.(entered := s.entered + multiset{m}), m)
    case HeadLooksAgain => Look(s, s.putter.msg)
    case HeadLocks => s.(putter := NoPutter, getter := Prepending(s.putter.msg))
    case HeadPrepends => s.(get := [s.getter.msg] + s.get, getter := NoGetter)
    case HeadWrites => s.(put := [s.putter.msg] + s.put, putter := NoPutter)
    case HeadWakes(m) => s.(put := [m] + s.put, waiting := s.waiting - multiset{m})
    case GetEnters => s.(getter := if s.get != [] then Ready else Emptied)
    case GetSwaps =>
      if s.put == [] then s.(getter := NoGetter)
      else s.(get := s.put, put := [], getter := Ready)
    case GetTakes =>
      if s.get == [] then s else s.(get := s.get[1..], getter := NoGetter, taken := s.taken + [s.get[0]])
    case SetNonblock(on) => s.(nonblock := on)
  }

  /** The queue as one sequence.  A message whose put_head has seen the get list empty already
      counts as in front of the put list. */
  ghost function Contents(s: State): seq<Msg> {
    s.get + (if s.putter.FoundEmpty? then [s.putter.msg] else []) + s.put
  }

  /** In how many put_head calls a message has not been placed yet. */
  ghost function Unplaced(s: State, m: Msg): nat {
    One(s.putter.FoundFull? && s.putter.msg == m) + One(s.getter.Prepending? && s.getter.msg == m) + s.waiting[m]
  }

  /** How often a message has been taken, is in the queue, or is in the hands of a put_head. */
  ghost function Held(s: State, m: Msg): nat {
    Count(s.taken, m) + Count(s.get, m) + Count(s.put, m) + One(s.putter.FoundEmpty? && s.putter.msg == m) + Unplaced(s, m)
  }

  ghost predicate Kept(s: State) {
    forall m :: s.entered[m] == Held(s, m)
  }

  ghost predicate Inv(s: State) {
    (s.getter.Emptied? ==> s.get == []) && (s.getter.Ready? ==> s.get != []) && Kept(s)
  }

  lemma CountOne(n: Msg, m: Msg)
    ensures Count([n], m) == One(n == m) && Count([], m) == 0
  {
  }

  // ---------- each step, seen from outside ----------

  /** What each step does to the sequence.  A put adds at the end, a get takes the front; a
      put_head adds at the front, when it finds the get list empty and room in the other or when
      it writes to the get list, but behind the get list when it has waited for room.  All other
      steps leave the sequence alone. */
  lemma Refines(s: State, a: Action)
    requires Inv(s) && Enabled(s, a)
    ensures var t := Apply(s, a);
      if a.Put? then Contents(t) == Contents(s) + [a.msg]
      else if a.HeadWakes? then Contents(s) == s.get + s.put && Contents(t) == s.get + [a.msg] + s.put
      else if a.HeadPrepends? then Contents(t) == [s.getter.msg] + Contents(s)
      else if a.HeadLooks? && t.putter.FoundEmpty? then Contents(t) == [a.msg] + Contents(s)
      else if a.HeadLooksAgain? && t.putter.FoundEmpty? then Contents(t) == [s.putter.msg] + Contents(s)
      else if a.GetTakes? then Contents(s) == [s.get[0]] + Contents(t)
      else Contents(t) == Contents(s)
    ensures Apply(s, a).taken == if a.GetTakes? then s.taken + [s.get[0]] else s.taken
  {
    hide Kept, Contents;
    if a.Put? || a.HeadPrepends? || a.GetTakes? {
      RefinesMove(s, a);
    } else if a.HeadWakes? {
      RefinesWake(s, a.msg);
    } else {
      RefinesOther(s, a);
    }
  }

  lemma RefinesMove(s: State, a: Action)
    requires Inv(s) && Enabled(s, a) && (a.Put? || a.HeadPrepends? || a.GetTakes?)
    ensures var t := Apply(s, a);
      if a.Put? then Contents(t) == Contents(s) + [a.msg]
      else if a.HeadPrepends? then Contents(t) == [s.getter.msg] + Contents(s)
      else Contents(s) == [s.get[0]] + Contents(t)
  {
    hide Kept;
    var p := if s.putter.FoundEmpty? then [s.putter.msg] else [];
    match a
    case Put(m) => Back(s.get, s.put, m);
    case HeadPrepends => Push(s.getter.msg, s.get, p, s.put);
    case GetTakes => Push(s.get[0], s.get[1..], p, s.put);
  }

  lemma RefinesOther(s: State, a: Action)
    requires Inv(s) && Enabled(s, a) && !a.HeadWakes? && !a.Put? && !a.HeadPrepends? && !a.GetTakes?
    ensures var t := Apply(s, a);
      if a.HeadLooks? && t.putter.FoundEmpty? then Contents(t) == [a.msg] + Contents(s)
      else if a.HeadLooksAgain? && t.putter.FoundEmpty? then Contents(t) == [s.putter.msg] + Contents(s)
      else Contents(t) == Contents(s)
  {
    hide Kept;
    match a
    case HeadLooks(m) => Front([], [m], s.put);
    case HeadLooksAgain => Front([], [s.putter.msg], s.put);
    case HeadWrites => Front(s.get, [s.putter.msg], s.put);
    case GetSwaps => Front(s.put, [], s.put);
    case _ =>
  }

  lemma RefinesWake(s: State, m: Msg)
    requires Enabled(s, HeadWakes(m))
    ensures Contents(s) == s.get + s.put && Contents(Apply(s, HeadWakes(m))) == s.get + [m] + s.put
  {
    Front(s.get, [], s.put);
    Front(s.get, [m], s.put);
  }

  lemma Front(a: seq<Msg>, b: seq<Msg>, c: seq<Msg>)
    ensures [] + b + c == b + c && a + [] + c == a + c && b + [] + [] == b && a + (b + c) == a + b + c
  {
  }

  lemma Back(a: seq<Msg>, c: seq<Msg>, m: Msg)
    ensures a + [] + (c + [m]) == a + [] + c + [m]
  {
  }

  lemma Push(m: Msg, a: seq<Msg>, b: seq<Msg>, c: seq<Msg>)
    ensures [m] + a + b + c == [m] + (a + b + c)
    ensures forall q: seq<Msg> :: q != [] && q[0] == m && q[1..] == a ==> q == [m] + a
  {
  }

  /** A put_head that had to wait for room has looked at the get list before the wait only: its
      message comes first if and only if the get list is empty when it wakes. */
  lemma WakesInFrontExactly(s: State, m: Msg)
    requires Enabled(s, HeadWakes(m)) && m !in s.get
    ensures Contents(Apply(s, HeadWakes(m))) == s.get + [m] + s.put
    ensures Contents(Apply(s, HeadWakes(m))) == [m] + Contents(s) <==> s.get == []
  {
    Front(s.get, [m], s.put);
    InFront(s.get, s.put, m);
  }

  lemma InFront(a: seq<Msg>, c: seq<Msg>, m: Msg)
    requires m !in a
    ensures a + [m] + c == [m] + (a + [] + c) <==> a == []
  {
    if a != [] {
      assert (a + [m] + c)[0] == a[0];
    } else {
      assert a + [m] + c == [m] + (a + [] + c);
    }
  }

  lemma StepKeeps(s: State, a: Action)
    requires Inv(s) && Enabled(s, a)
    ensures Inv(Apply(s, a))
  {
    hide Kept, Look;
    KeptOn(s, a);
    if a.HeadLooks? || a.HeadLooksAgain? { Looks(s, a); }
  }

  lemma Looks(s: State, a: Action)
    requires Inv(s) && Enabled(s, a) && (a.HeadLooks? || a.HeadLooksAgain?)
    ensures var t := Apply(s, a); t.getter == s.getter && t.get == s.get
  {
  }

  ghost predicate Moves(a: Action) {
    a.Put? || a.HeadPrepends? || a.HeadWrites? || a.HeadWakes? || a.GetTakes?
  }

  lemma HeldAfterMove(s: State, a: Action, m: Msg)
    requires Inv(s) && Enabled(s, a) && Moves(a)
    ensures var t := Apply(s, a); Held(t, m) - t.entered[m] == Held(s, m) - s.entered[m]
  {
    hide Count, Kept;
    match a
    case Put(n) => CountSum(s.put, [n], m); CountOne(n, m);
    case HeadPrepends => CountSum([s.getter.msg], s.get, m); CountOne(s.getter.msg, m);
    case HeadWrites => CountSum([s.putter.msg], s.put, m); CountOne(s.putter.msg, m);
    case HeadWakes(n) => CountSum([n], s.put, m); CountOne(n, m);
    case GetTakes =>
      assert s.get == [s.get[0]] + s.get[1..];
      CountSum([s.get[0]], s.get[1..], m);
      CountSum(s.taken, [s.get[0]], m);
  }

  lemma HeldAfterOther(s: State, a: Action, m: Msg)
    requires Inv(s) && Enabled(s, a) && !Moves(a)
    ensures var t := Apply(s, a); Held(t, m) - t.entered[m] == Held(s, m) - s.entered[m]
  {
    hide Count, Kept;
    CountOne(m, m);
  }

  lemma KeptOn(s: State, a: Action)
    requires Inv(s) && Enabled(s, a)
    ensures Kept(Apply(s, a))
  {
    hide Held, Apply, Enabled;
    forall m ensures Apply(s, a).entered[m] == Held(Apply(s, a), m) {
      if Moves(a) { HeldAfterMove(s, a, m); } else { HeldAfterOther(s, a, m); }
    }
  }

  ghost predicate Runs(s: State, run: seq<Action>, t: State)
    decreases |run|
  {
    if run == [] then s == t
    else Enabled(s, run[0]) && Runs(Apply(s, run[0]), run[1..], t)
  }

  lemma {:induction false} RunKeeps(s: State, run: seq<Action>, t: State)
    requires Inv(s) && Runs(s, run, t)
    ensures Inv(t)
    decreases |run|
  {
    hide Inv, Enabled, Apply;
    if run != [] {
      StepKeeps(s, run[0]);
      RunKeeps(Apply(s, run[0]), run[1..], t);
    }
  }

  /** No message is lost and none is delivered twice: each has entered exactly as often as it has
      been taken, is in the queue, or is still in the hands of a put_head. */
  lemma Conserved(max: nat, run: seq<Action>, s: State, m: Msg)
    requires Runs(Empty(max), run, s)
    ensures s.entered[m] == Count(s.taken, m) + Count(Contents(s), m) + Unplaced(s, m)
  {
    hide Runs, Unplaced;
    EmptyInv(max);
    RunKeeps(Empty(max), run, s);
    assert s.entered[m] == Held(s, m);
    var p := if s.putter.FoundEmpty? then [s.putter.msg] else [];
    CountSum(s.get + p, s.put, m);
    CountSum(s.get, p, m);
    if s.putter.FoundEmpty? { CountOne(s.putter.msg, m); } else { CountOne(m, m); }
  }

  lemma EmptyInv(max: nat)
    ensures Inv(Empty(max))
  {
  }

  ghost function PutsOf(run: seq<Action>): seq<Msg> {
    if run == [] then []
    else (if run[0].Put? then [run[0].msg] else []) + PutsOf(run[1..])
  }

  ghost predicate NoHeads(run: seq<Action>) {
    forall i :: 0 <= i < |run| ==> !run[i].HeadLooks?
  }

  ghost predicate PlainState(s: State) {
    s.putter.NoPutter? && !s.getter.Prepending? && s.waiting == multiset{}
  }

  lemma PlainStep(s: State, a: Action)
    requires Inv(s) && Enabled(s, a) && PlainState(s) && !a.HeadLooks?
    ensures PlainState(Apply(s, a)) && !a.HeadWakes? && !a.HeadPrepends? && !a.HeadLooksAgain?
  {
  }

  lemma FifoStep(s: State, a: Action, rest: seq<Msg>)
    requires Inv(s) && Enabled(s, a) && PlainState(s) && !a.HeadLooks?
    ensures var m := Apply(s, a);
      m.taken + Contents(m) + rest == s.taken + Contents(s) + ((if a.Put? then [a.msg] else []) + rest)
  {
    hide Inv, Contents, Apply, Enabled;
    PlainStep(s, a);
    Refines(s, a);
    ReadyHas(s, a);
    var m := Apply(s, a);
    if a.GetTakes? {
      assert s.taken + ([s.get[0]] + Contents(m)) == s.taken + [s.get[0]] + Contents(m);
    }
  }

  lemma ReadyHas(s: State, a: Action)
    requires Inv(s) && Enabled(s, a)
    ensures a.GetTakes? ==> s.get != []
  {
  }

  lemma {:induction false} FifoFrom(s: State, run: seq<Action>, t: State)
    requires Inv(s) && Runs(s, run, t) && NoHeads(run) && PlainState(s)
    ensures t.taken + Contents(t) == s.taken + Contents(s) + PutsOf(run)
    decreases |run|
  {
    hide Inv, Contents, Apply, Enabled, PlainState;
    if run != [] {
      var m := Apply(s, run[0]);
      assert !run[0].HeadLooks?;
      StepKeeps(s, run[0]);
      PlainStep(s, run[0]);
      FifoFrom(m, run[1..], t);
      FifoStep(s, run[0], PutsOf(run[1..]));
    }
  }

  /** Messages that are put and got come out in the order they were put, whatever the
      interleaving. */
  lemma Fifo(max: nat, run: seq<Action>, s: State)
    requires Runs(Empty(max), run, s) && NoHeads(run)
    ensures s.taken + Contents(s) == PutsOf(run)
  {
    hide Runs, Kept;
    EmptyInv(max);
    FifoFrom(Empty(max), run, s);
  }

  // ---------- a put_head that comes late ----------

  lemma Then(s: State, a: Action, m: State, rest: seq<Action>, t: State)
    requires Enabled(s, a) && Apply(s, a) == m && Runs(m, rest, t)
    ensures Runs(s, [a] + rest, t)
  {
    hide Enabled, Apply;
    assert ([a] + rest)[1..] == rest;
  }

  /** A run in which put_head does not put its message first: it finds the queue full, a get swaps
      the lists while it waits, and its message comes behind the one that was put before. */
  lemma WakesBehind(m: Msg, n: Msg) returns (run: seq<Action>, s: State)
    requires m != n
    ensures Runs(Empty(1), run, s) && Enabled(s, HeadWakes(n)) && Contents(s) == [m]
    ensures Contents(Apply(s, HeadWakes(n))) == [m, n]
  {
    hide Runs;
    var s0 := Empty(1);
    var s1 := s0.(put := [m], entered := multiset{m});
    var s2 := s1.(waiting := multiset{n}, entered := multiset{m} + multiset{n});
    var s3 := s2.(getter := Emptied);
    s := s3.(get := [m], put := [], getter := Ready);
    assert [] + [m] == [m] && multiset{} + multiset{m} == multiset{m} && multiset{} + multiset{n} == multiset{n};
    RunsEmpty(s);
    Then(s3, GetSwaps, s, [], s);
    run := [GetSwaps] + [];
    Then(s2, GetEnters, s3, run, s);
    run := [GetEnters] + run;
    Then(s1, HeadLooks(n), s2, run, s);
    run := [HeadLooks(n)] + run;
    Then(s0, Put(m), s1, run, s);
    run := [Put(m)] + run;
    RefinesWake(s, n);
  }

  lemma RunsEmpty(s: State) ensures Runs(s, [], s) {}

  // ---------- maxlen 0 ----------

  /** thrdpool_create asks for maxlen 0 to have no limit, but the test for a full queue is
      msg_cnt == msg_max: as written, a queue is able to take a first message if and only if its
      maxlen is positive or it has been set to non-blocking. */
  lemma FirstPutExactly(s: State)
    requires Inv(s) && s.put == [] && s.putter.NoPutter?
    ensures (forall m :: Enabled(s, Put(m))) <==> s.max > 0 || s.nonblock
    ensures (exists m :: Enabled(s, Put(m))) <==> s.max > 0 || s.nonblock
  {
    if s.max > 0 || s.nonblock {
      assert Enabled(s, Put(0));
    } else {
      assert !Enabled(s, Put(0));
    }
  }

  lemma {:induction false} ZeroFrom(s: State, run: seq<Action>, t: State)
    requires s.max == 0 && !s.nonblock && s.get == [] && s.put == [] && s.putter.NoPutter? && s.taken == []
    requires !s.getter.Ready? && !s.getter.Prepending?
    requires Runs(s, run, t) && forall i :: 0 <= i < |run| ==> !run[i].SetNonblock?
    ensures t.taken == [] && t.get == [] && t.put == []
    decreases |run|
  {
    if run != [] {
      assert !run[0].SetNonblock?;
      ZeroFrom(Apply(s, run[0]), run[1..], t);
    }
  }

  /** With maxlen 0 and blocking, no run ever delivers a message, where msgqueue_put_head waits as
      msg_queue_put does. */
  lemma ZeroDeliversNothing(run: seq<Action>, s: State)
    requires Runs(Empty(0), run, s) && forall i :: 0 <= i < |run| ==> !run[i].SetNonblock?
    ensures s.taken == []
  {
    hide Runs;
    ZeroFrom(Empty(0), run, s);
  }

  // ---------- msgqueue_put_head with its test as written ----------

  /** The wait of msgqueue_put_head as written: on a full queue that does not block. */
  ghost predicate WaitsWritten(s: State) {
    |s.put| == s.max && s.nonblock
  }

  ghost function LookWritten(s: State, m: Msg): State {
    if s.get != [] then s.(putter := FoundFull(m))
    else if WaitsWritten(s) then s.(putter := NoPutter, waiting := s.waiting + multiset{m})
    else s.(putter := FoundEmpty(m))
  }

  ghost predicate EnabledWritten(s: State, a: Action) {
    match a
    case HeadWakes(m) => s.putter.NoPutter? && m in s.waiting && !WaitsWritten(s)
    case _ => Enabled(s, a)
  }

  ghost function ApplyWritten(s: State, a: Action): State
    requires EnabledWritten(s, a)
  {
    match a
    case HeadLooks(m) => LookWritten(s.(entered := s.entered + multiset{m}), m)
    case HeadLooksAgain => LookWritten(s, s.putter.msg)
    case HeadWakes(m) => s.(put := [m] + s.put, waiting := s.waiting - multiset{m})
    case _ => Apply(s, a)
  }

  ghost predicate RunsWritten(s: State, run: seq<Action>, t: State)
    decreases |run|
  {
    if run == [] then s == t
    else EnabledWritten(s, run[0]) && RunsWritten(ApplyWritten(s, run[0]), run[1..], t)
  }

  lemma ThenWritten(s: State, a: Action, m: State, rest: seq<Action>, t: State)
    requires EnabledWritten(s, a) && ApplyWritten(s, a) == m && RunsWritten(m, rest, t)
    ensures RunsWritten(s, [a] + rest, t)
  {
    hide EnabledWritten, ApplyWritten;
    assert ([a] + rest)[1..] == rest;
  }

  /** Nothing has got into a blocking queue with maxlen 0, and no put_head is under way. */
  ghost predicate Barred(s: State) {
    && s.max == 0 && !s.nonblock && s.get == [] && s.put == [] && s.taken == []
    && s.putter.NoPutter? && s.waiting == multiset{} && !s.getter.Ready? && !s.getter.Prepending?
  }

  lemma StaysBarred(s: State, a: Action)
    requires Barred(s) && EnabledWritten(s, a) && !a.SetNonblock? && !a.HeadLooks?
    ensures Barred(ApplyWritten(s, a))
  {
  }

  lemma {:induction false} BarredFrom(s: State, run: seq<Action>, t: State)
    requires Barred(s) && RunsWritten(s, run, t)
    requires forall i :: 0 <= i < |run| ==> !run[i].SetNonblock? && !run[i].HeadLooks?
    ensures Barred(t)
    decreases |run|
  {
    hide EnabledWritten, ApplyWritten, Barred;
    if run != [] {
      assert !run[0].SetNonblock? && !run[0].HeadLooks?;
      StaysBarred(s, run[0]);
      assert forall i :: 0 <= i < |run[1..]| ==> run[1..][i] == run[i + 1];
      BarredFrom(ApplyWritten(s, run[0]), run[1..], t);
    }
  }

  /** As written, only a put_head gets past maxlen 0: as long as none is called nothing is ever
      delivered ... */
  lemma ZeroWithoutHead(run: seq<Action>, s: State)
    requires RunsWritten(Empty(0), run, s)
    requires forall i :: 0 <= i < |run| ==> !run[i].SetNonblock? && !run[i].HeadLooks?
    ensures s.taken == []
  {
    hide RunsWritten;
    BarredFrom(Empty(0), run, s);
  }

  /** The states of one put_head and one get, by themselves. */
  ghost function Stage(m: Msg, k: nat): State {
    var s := Empty(0).(entered := multiset{m});
    match k
    case 0 => Empty(0)
    case 1 => s.(putter := FoundEmpty(m))
    case 2 => s.(put := [m])
    case 3 => s.(put := [m], getter := Emptied)
    case 4 => s.(get := [m], getter := Ready)
    case _ => s.(taken := [m])
  }

  ghost function StageAction(m: Msg, k: nat): Action {
    match k
    case 0 => HeadLooks(m)
    case 1 => HeadWrites
    case 2 => GetEnters
    case 3 => GetSwaps
    case _ => GetTakes
  }

  lemma NextStage(m: Msg, k: nat)
    requires k < 5
    ensures EnabledWritten(Stage(m, k), StageAction(m, k)) && ApplyWritten(Stage(m, k), StageAction(m, k)) == Stage(m, k + 1)
  {
    assert multiset{} + multiset{m} == multiset{m} && [m] + [] == [m] && [m][1..] == [] && [] + [m] == [m];
  }

  lemma {:induction false} FromStage(m: Msg, k: nat) returns (run: seq<Action>)
    requires k <= 5
    ensures RunsWritten(Stage(m, k), run, Stage(m, 5)) && forall i :: 0 <= i < |run| ==> !run[i].SetNonblock?
    decreases 5 - k
  {
    hide EnabledWritten, ApplyWritten, Stage;
    run := [];
    if k < 5 {
      run := FromStage(m, k + 1);
      NextStage(m, k);
      ThenWritten(Stage(m, k), StageAction(m, k), Stage(m, k + 1), run, Stage(m, 5));
      run := [StageAction(m, k)] + run;
    }
  }

  /** ... and one call is enough: its message is delivered. */
  lemma HeadGetsPast(m: Msg) returns (run: seq<Action>, s: State)
    ensures RunsWritten(Empty(0), run, s) && s.taken == [m]
    ensures forall i :: 0 <= i < |run| ==> !run[i].SetNonblock?
  {
    hide RunsWritten;
    run := FromStage(m, 0);
    s := Stage(m, 5);
  }
}
