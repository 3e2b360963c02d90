/** Whatever is done with a queue, by any number of threads in any order: each section is run if it
    can be, and what TrackedQueue promises of one holds after all of them. */
module QueueUse {
  import opened Common
  import M = MsgQueue
  import QP = QueueProtocol
  import QS = QueueSteps

  /** One section of some thread.  A message is named when it is given to the queue first. */
  datatype Call =
    | Put(msg: M.Msg, name: nat)
    | HeadLooks(msg: M.Msg, name: nat)
    | HeadLooksAgain
    | HeadLocks
    | HeadPrepends
    | HeadWrites
    | HeadWakes(msg: M.Msg)
    | GetEnters
    | GetSwaps
    | GetTakes
    | SetNonblock(on: bool)

  /** The message is not in the queue and in nobody's hands, or has never been seen. */
  predicate Free(t: QS.TrackedQueue, m: M.Msg, name: nat)
    reads t
  {
    if m in t.names then t.names[m] !in t.s.get && t.names[m] !in t.s.put && m !in QS.Held1(t.h)
    else name !in t.names.Values
  }

  predicate Ready(t: QS.TrackedQueue, c: Call)
    reads t, t.q
  {
    match c
    case Put(m, name) => Free(t, m, name) && t.s.putter.NoPutter? && !t.q.Full()
    case HeadLooks(m, name) => Free(t, m, name) && t.s.putter.NoPutter?
    case HeadLooksAgain => QP.Enabled(t.s, QP.HeadLooksAgain) && t.h.putter.Some?
    case HeadLocks => QP.Enabled(t.s, QP.HeadLocks) && t.h.putter.Some?
    case HeadPrepends => QP.Enabled(t.s, QP.HeadPrepends) && t.h.getter.Some?
    case HeadWrites => QP.Enabled(t.s, QP.HeadWrites) && t.h.putter.Some?
    case HeadWakes(m) => m in t.h.waiting && QP.Enabled(t.s, QP.HeadWakes(QS.Name(t.names, m)))
    case GetEnters => t.s.getter.NoGetter?
    case GetSwaps => QP.Enabled(t.s, QP.GetSwaps)
    case GetTakes => QP.Enabled(t.s, QP.GetTakes)
    case SetNonblock(_) => true
  }

  ghost predicate Did(c: Call, more: seq<QP.Action>) {
    && |more| == 1
    && match c
       case Put(_, _) => more[0].Put?
       case HeadLooks(_, _) => more[0].HeadLooks?
       case HeadLooksAgain => more[0].HeadLooksAgain?
       case HeadLocks => more[0].HeadLocks?
       case HeadPrepends => more[0].HeadPrepends?
       case HeadWrites => more[0].HeadWrites?
       case HeadWakes(_) => more[0].HeadWakes?
       case GetEnters => more[0].GetEnters?
       case GetSwaps => more[0].GetSwaps?
       case GetTakes => more[0].GetTakes?
       case SetNonblock(on) => more[0] == QP.SetNonblock(on)
  }

  ghost function Msgs(calls: seq<Call>): set<M.Msg> {
    (set c | c in calls && c.Put? :: c.msg) + set c | c in calls && c.HeadLooks? :: c.msg
  }

  lemma IsOutside(t: QS.TrackedQueue, m: M.Msg, name: nat)
    requires t.Valid() && Free(t, m, name)
    ensures t.Outside(m)
  {
    hide QP.Runs, M.Queue.Valid, QS.Tally, QS.NamedSeq;
    if m in t.names {
      NamedIn(t.names, t.q.getList, m);
      NamedIn(t.names, t.q.putList, m);
    }
  }

  lemma NamedIn(names: QS.Names, q: seq<M.Msg>, m: M.Msg)
    requires m in names
    ensures m in q ==> names[m] in QS.NamedSeq(names, q)
  {
    if m in q {
      var i :| 0 <= i < |q| && q[i] == m;
      assert QS.NamedSeq(names, q)[i] == names[m];
    }
  }

  lemma Known(t: QS.TrackedQueue)
    requires t.Valid()
    ensures Elems(t.q.putList) + Elems(t.q.getList) + QS.Held1(t.h) <= t.names.Keys
  {
    hide QP.Runs, M.Queue.Valid, QS.Tally, QS.NamedSeq;
  }

  /** A caller gives a message to the queue. */
  method Give(t: QS.TrackedQueue, c: Call, ghost msgs: set<M.Msg>) returns (taken: bool, ghost more: seq<QP.Action>)
    requires t.Valid() && t.names.Keys <= msgs && (c.Put? || c.HeadLooks?) && c.msg in msgs
    modifies t, t.q, msgs
    ensures t.Valid() && t.names.Keys <= msgs && taken == old(Ready(t, c)) && t.run == old(t.run) + more
    ensures if taken then Did(c, more) else more == [] && t.s == old(t.s)
  {
    hide QS.TrackedQueue.Valid, QS.TrackedQueue.Outside, QP.Runs, QP.Apply, QP.Enabled, M.Queue.Full, QS.Name, Free;
    taken, more := Ready(t, c), [];
    if taken {
      IsOutside(t, c.msg, c.name);
      Known(t);
      Named(t, c.msg, c.name);
      t.Admit(c.msg, c.name);
      match c {
        case Put(m, _) => t.Put(m);
        case HeadLooks(m, _) => var found, room := t.HeadLooks(m);
      }
      more := t.run[|old(t.run)|..];
    }
  }

  lemma Named(t: QS.TrackedQueue, m: M.Msg, name: nat)
    requires Free(t, m, name)
    ensures m in t.names || name !in t.names.Values
  {
  }

  /** A put_head, a get or a change of mode goes on. */
  method Work(t: QS.TrackedQueue, c: Call, ghost msgs: set<M.Msg>) returns (taken: bool, ghost more: seq<QP.Action>)
    requires t.Valid() && t.names.Keys <= msgs && !c.Put? && !c.HeadLooks?
    modifies t, t.q, msgs
    ensures t.Valid() && t.names.Keys <= msgs && taken == old(Ready(t, c)) && t.run == old(t.run) + more
    ensures if taken then Did(c, more) else more == [] && t.s == old(t.s)
  {
    hide QS.TrackedQueue.Valid, QP.Runs, QP.Apply, QP.Enabled, QS.Name;
    taken, more := Ready(t, c), [];
    if taken {
      Known(t);
      match c {
        case HeadLooksAgain => var found, room := t.HeadLooksAgain(t.h.putter.value);
        case HeadLocks => t.HeadLocks(t.h.putter.value);
        case HeadPrepends => t.HeadPrepends(t.h.getter.value);
        case HeadWrites => t.HeadWrites(t.h.putter.value);
        case HeadWakes(m) => t.HeadWakes(m);
        case GetEnters => var found := t.GetEnters();
        case GetSwaps => var cnt := t.GetSwaps();
        case GetTakes => var m := t.GetTakes();
        case SetNonblock(on) => t.SetNonblock(on);
      }
      more := t.run[|old(t.run)|..];
    }
  }

  /** Any sequence of sections on a new queue: the count, the tail and the links are right, and each
      message was taken, is in the queue or is in the hands of a put_head as often as it was given. */
  method Use(maxlen: nat, calls: seq<Call>) returns (t: QS.TrackedQueue, taken: seq<bool>, ghost parts: seq<seq<QP.Action>>)
    modifies Msgs(calls)
    ensures t.Valid() && fresh(t) && |taken| == |parts| == |calls|
    ensures forall i :: 0 <= i < |calls| ==> if taken[i] then Did(calls[i], parts[i]) else parts[i] == []
    ensures t.q.msgCnt == |t.q.putList| && t.q.putTail == M.Last(t.q.putList)
    ensures forall m :: t.s.entered[m] == Count(t.s.taken, m) + Count(QP.Contents(t.s), m) + QP.Unplaced(t.s, m)
  {
    hide QS.TrackedQueue.Valid, Did, QP.Unplaced, QP.Contents, Count, Ready;
    t := new QS.TrackedQueue(maxlen);
    taken, parts := [], [];
    ghost var msgs := Msgs(calls);
    while |taken| < |calls|
      invariant |taken| == |parts| <= |calls| && t.Valid() && fresh(t) && fresh(t.q) && t.names.Keys <= msgs
      invariant forall i :: 0 <= i < |taken| ==> if taken[i] then Did(calls[i], parts[i]) else parts[i] == []
    {
      var c := calls[|taken|];
      var ok;
      ghost var more;
      if c.Put? || c.HeadLooks? {
        ok, more := Give(t, c, msgs);
      } else {
        ok, more := Work(t, c, msgs);
      }
      taken, parts := taken + [ok], parts + [more];
    }
    t.Always(0);
    forall m ensures t.s.entered[m] == Count(t.s.taken, m) + Count(QP.Contents(t.s), m) + QP.Unplaced(t.s, m) { t.Always(m); }
  }
}
