/** The critical sections of the linked queue are steps of QueueProtocol.  A TrackedQueue is a queue
    with the state it shows and the run that led there: any sequence of its methods, which is any
    interleaving of any threads under the two locks, keeps Valid().  So at every moment the cells
    are the two lists, msg_cnt is the length of the put list, put_tail its end, and the messages are
    those of a reachable state of the protocol. */
module QueueSteps {
  import opened Common
  import M = MsgQueue
  import opened QueueProtocol

  /** A name for each message that has ever been given to the queue. */
  type Names = map<M.Msg, nat>

  ghost predicate Distinct(names: Names) {
    forall a, b :: a in names && b in names && names[a] == names[b] ==> a == b
  }

  function Name(names: Names, m: M.Msg): Msg {
    if m in names then names[m] else 0
  }

  ghost function NamedSeq(names: Names, q: seq<M.Msg>): seq<Msg> {
    seq(|q|, i requires 0 <= i < |q| => Name(names, q[i]))
  }

  ghost function Tally(names: Names, q: set<M.Msg>): multiset<Msg> {
    multiset(set m | m in q :: Name(names, m))
  }

  /** Messages that callers of msgqueue_put_head hold: one that has looked and keeps put_mutex, one
      that keeps get_mutex, and those that wait for room. */
  datatype Hands = Hands(putter: Option<M.Msg>, getter: Option<M.Msg>, waiting: set<M.Msg>)

  function One1(m: Option<M.Msg>): set<M.Msg> {
    if m.Some? then {m.value} else {}
  }

  function Held1(h: Hands): set<M.Msg> {
    One1(h.putter) + One1(h.getter) + h.waiting
  }

  /** No message is in two hands, or in a hand and in the queue. */
  ghost predicate Apart(h: Hands, inQueue: set<M.Msg>) {
    && One1(h.putter) !! One1(h.getter) && One1(h.putter) !! h.waiting && One1(h.getter) !! h.waiting
    && Held1(h) !! inQueue
  }

  ghost predicate HandsShow(names: Names, h: Hands, s: State) {
    && s.putter.NoPutter? == h.putter.None? && (h.putter.Some? ==> s.putter.msg == Name(names, h.putter.value))
    && s.getter.Prepending? == h.getter.Some? && (h.getter.Some? ==> s.getter.msg == Name(names, h.getter.value))
    && s.waiting == Tally(names, h.waiting)
  }

  lemma NamedPush(names: Names, a: seq<M.Msg>, m: M.Msg)
    ensures NamedSeq(names, a + [m]) == NamedSeq(names, a) + [Name(names, m)]
    ensures NamedSeq(names, [m] + a) == [Name(names, m)] + NamedSeq(names, a)
    ensures NamedSeq(names, []) == []
  {
  }

  lemma ElemsPush(a: seq<M.Msg>, m: M.Msg)
    ensures Elems(a + [m]) == Elems(a) + {m} && Elems([m] + a) == Elems(a) + {m}
  {
    assert forall x :: x in a ==> x in a + [m] && x in [m] + a;
    assert m in a + [m] && m in [m] + a;
  }

  lemma NamedNone(names: Names)
    ensures NamedSeq(names, []) == [] && Elems<M.Msg>([]) == {}
  {
  }

  lemma NamedFirst(names: Names, q: seq<M.Msg>)
    requires q != []
    ensures NamedSeq(names, q) != [] && NamedSeq(names, q)[0] == Name(names, q[0]) && NamedSeq(names, q)[1..] == NamedSeq(names, q[1..])
    ensures Elems(q[1..]) <= Elems(q)
  {
  }

  lemma TallyMore(names: Names, q: set<M.Msg>, m: M.Msg)
    requires Distinct(names) && q <= names.Keys && m in names
    ensures m !in q ==> Tally(names, q + {m}) == Tally(names, q) + multiset{Name(names, m)}
    ensures m in q ==> Tally(names, q - {m}) == Tally(names, q) - multiset{Name(names, m)} && Name(names, m) in Tally(names, q)
  {
    var all := set x | x in q :: Name(names, x);
    if m !in q {
      assert (set x | x in q + {m} :: Name(names, x)) == all + {Name(names, m)};
      assert Name(names, m) !in all;
    } else {
      assert (set x | x in q - {m} :: Name(names, x)) == all - {Name(names, m)};
      assert Name(names, m) in all;
    }
  }

  lemma StillNamed(names: Names, m: M.Msg, k: nat, q: seq<M.Msg>, w: set<M.Msg>)
    requires Distinct(names) && m !in names && k !in names.Values && Elems(q) <= names.Keys && w <= names.Keys
    ensures Distinct(names[m := k]) && NamedSeq(names[m := k], q) == NamedSeq(names, q)
    ensures Tally(names[m := k], w) == Tally(names, w)
  {
    forall a | a in names ensures names[a] != k { assert names[a] in names.Values; }
    assert forall i :: 0 <= i < |q| ==> q[i] in Elems(q);
    assert (set x | x in w :: Name(names[m := k], x)) == set x | x in w :: Name(names, x);
  }

  lemma Extend(max: nat, run: seq<Action>, s: State, a: Action)
    requires Runs(Empty(max), run, s) && Enabled(s, a)
    ensures Runs(Empty(max), run + [a], Apply(s, a))
  {
    ExtendFrom(Empty(max), run, s, a);
  }

  lemma {:induction false} ExtendFrom(s0: State, run: seq<Action>, s: State, a: Action)
    requires Runs(s0, run, s) && Enabled(s, a)
    ensures Runs(s0, run + [a], Apply(s, a))
    decreases |run|
  {
    hide Enabled, Apply;
    if run == [] {
      assert run + [a] == [a];
      assert Runs(Apply(s, a), [a][1..], Apply(s, a));
    } else {
      ExtendFrom(Apply(s0, run[0]), run[1..], s, a);
      assert (run + [a])[1..] == run[1..] + [a];
    }
  }

  class TrackedQueue {
    const q: M.Queue
    ghost const max: nat
    /** The messages ever given to the queue, those in the hands of callers, and where threads and
        messages stand. */
    var names: Names
    var h: Hands
    var s: State
    ghost var run: seq<Action>

    constructor (maxlen: nat)
      ensures Valid() && fresh(q) && s == Empty(maxlen) && max == maxlen && h == Hands(None, None, {})
      ensures names == map[] && run == [] && q.Contents() == []
    {
      q := new M.Queue(maxlen);
      max := maxlen;
      names, h, s, run := map[], Hands(None, None, {}), Empty(maxlen), [];
    }

    ghost predicate Shows()
      reads this, q
    {
      && Distinct(names) && Elems(q.getList) + Elems(q.putList) + Held1(h) <= names.Keys
      && s.get == NamedSeq(names, q.getList) && s.put == NamedSeq(names, q.putList)
      && s.max == q.msgMax && s.nonblock == q.nonblock
      && HandsShow(names, h, s) && Apart(h, Elems(q.getList) + Elems(q.putList))
    }

    ghost predicate Valid()
      reads this, q, Elems(q.getList), Elems(q.putList)
    {
      q.Valid() && Shows() && Runs(Empty(max), run, s)
    }

    /** A message that is neither in the queue nor in the hands of a put_head. */
    ghost predicate Outside(m: M.Msg)
      reads this`h, q
    {
      m !in q.Contents() && m !in Held1(h)
    }

    /** A message is named when it is seen for the first time. */
    method Admit(m: M.Msg, k: nat)
      requires Valid() && (m in names || k !in names.Values)
      modifies this`names
      ensures Valid() && names == if m in old(names) then old(names) else old(names)[m := k]
    {
      hide NamedSeq, Tally, Runs, M.Queue.Valid;
      if m !in names {
        StillNamed(names, m, k, q.getList, h.waiting);
        StillNamed(names, m, k, q.putList, h.waiting);
        names := names[m := k];
      }
    }

    method Took(a: Action)
      requires Runs(Empty(max), run, s) && Enabled(s, a)
      modifies this`s, this`run
      ensures Runs(Empty(max), run, s) && s == Apply(old(s), a) && run == old(run) + [a]
    {
      Extend(max, run, s, a);
      run, s := run + [a], Apply(s, a);
    }

    lemma Facts()
      requires Valid()
      ensures Inv(s)
    {
      hide Runs, Inv;
      EmptyInv(max);
      RunKeeps(Empty(max), run, s);
    }

    /** The test for a full queue reads what the protocol says. */
    lemma FullIs()
      requires Valid()
      ensures q.Full() <==> Full(s)
      ensures (q.Look() <==> s.get != []) && (q.Look() <==> q.getList != [])
    {
      q.Reads();
    }

    /** msg_queue_put, once there is room */
    method Put(m: M.Msg)
      requires Valid() && m in names && Outside(m) && s.putter.NoPutter? && !q.Full()
      modifies this`s, this`run, q`head1, q`head2, q`putTail, q`msgCnt, q`putList, m, Elems(q.putList)
      ensures Valid() && s == Apply(old(s), Action.Put(Name(names, m))) && run == old(run) + [Action.Put(Name(names, m))]
    {
      hide NamedSeq, Tally, Runs, Name, Distinct, M.Queue.Valid, M.Queue.Full, M.Queue.Look;
      FullIs();
      NamedPush(names, q.putList, m);
      ElemsPush(q.putList, m);
      Took(Action.Put(Name(names, m)));
      q.Put(m);
    }

    /** msgqueue_put_head takes put_mutex and reads *get_head and the count */
    method HeadLooks(m: M.Msg) returns (found: bool, room: bool)
      requires Valid() && m in names && Outside(m) && s.putter.NoPutter?
      modifies this`s, this`run, this`h
      ensures Valid() && s == Apply(old(s), Action.HeadLooks(Name(names, m)))
      ensures run == old(run) + [Action.HeadLooks(Name(names, m))]
      ensures h == if found || room then old(h).(putter := Some(m)) else old(h).(waiting := old(h).waiting + {m})
      ensures found <==> q.getList != []
    {
      hide NamedSeq, Tally, Runs, Name, Distinct, M.Queue.Valid, M.Queue.Full, M.Queue.Look;
      FullIs();
      found, room := q.Look(), !q.Full();
      TallyMore(names, h.waiting, m);
      Took(Action.HeadLooks(Name(names, m)));
      h := if found || room then h.(putter := Some(m)) else h.(waiting := h.waiting + {m});
    }

    /** try_lock of get_mutex has failed; *get_head and the count are read again */
    method HeadLooksAgain(m: M.Msg) returns (found: bool, room: bool)
      requires Valid() && Enabled(s, Action.HeadLooksAgain) && h.putter == Some(m)
      modifies this`s, this`run, this`h
      ensures Valid() && s == Apply(old(s), Action.HeadLooksAgain) && run == old(run) + [Action.HeadLooksAgain]
      ensures found <==> q.getList != []
      ensures h == if found || room then old(h) else old(h).(putter := None, waiting := old(h).waiting + {m})
    {
      hide NamedSeq, Tally, Runs, Name, Distinct, M.Queue.Valid, M.Queue.Full, M.Queue.Look;
      FullIs();
      found, room := q.Look(), !q.Full();
      TallyMore(names, h.waiting, m);
      Took(Action.HeadLooksAgain);
      h := if found || room then h else h.(putter := None, waiting := h.waiting + {m});
    }

    /** try_lock of get_mutex has succeeded; put_mutex is released */
    method HeadLocks(m: M.Msg)
      requires Valid() && Enabled(s, Action.HeadLocks) && h.putter == Some(m)
      modifies this`s, this`run, this`h
      ensures Valid() && s == Apply(old(s), Action.HeadLocks) && run == old(run) + [Action.HeadLocks]
      ensures h == old(h).(putter := None, getter := Some(m))
    {
      hide NamedSeq, Tally, Runs, Name, Distinct, M.Queue.Valid, M.Queue.Full, M.Queue.Look;
      FullIs();
      Took(Action.HeadLocks);
      h := h.(putter := None, getter := Some(m));
    }

    /** ... and the message is linked in front of the get list */
    method HeadPrepends(m: M.Msg)
      requires Valid() && h.getter == Some(m) && Enabled(s, Action.HeadPrepends)
      modifies this`s, this`run, this`h, q`head1, q`head2, q`getList, m
      ensures Valid() && s == Apply(old(s), Action.HeadPrepends) && run == old(run) + [Action.HeadPrepends]
      ensures h == old(h).(getter := None)
    {
      hide NamedSeq, Tally, Runs, Name, Distinct, M.Queue.Valid, M.Queue.Full, M.Queue.Look;
      FullIs();
      NamedPush(names, q.getList, m);
      ElemsPush(q.getList, m);
      Took(Action.HeadPrepends);
      q.PrependGet(m);
      h := h.(getter := None);
    }

    /** the message is linked in front of the put list */
    method HeadWrites(m: M.Msg)
      requires Valid() && h.putter == Some(m) && Enabled(s, Action.HeadWrites)
      modifies this`s, this`run, this`h, q`head1, q`head2, q`putTail, q`msgCnt, q`putList, m
      ensures Valid() && s == Apply(old(s), Action.HeadWrites) && run == old(run) + [Action.HeadWrites]
      ensures h == old(h).(putter := None)
    {
      hide NamedSeq, Tally, Runs, Name, Distinct, M.Queue.Valid, M.Queue.Full, M.Queue.Look;
      FullIs();
      NamedPush(names, q.putList, m);
      ElemsPush(q.putList, m);
      Took(Action.HeadWrites);
      q.PrependPut(m);
      h := h.(putter := None);
    }

    /** the same after a wait for room */
    method HeadWakes(m: M.Msg)
      requires Valid() && m in h.waiting && Enabled(s, Action.HeadWakes(Name(names, m)))
      modifies this`s, this`run, this`h, q`head1, q`head2, q`putTail, q`msgCnt, q`putList, m
      ensures Valid() && s == Apply(old(s), Action.HeadWakes(Name(names, m)))
      ensures run == old(run) + [Action.HeadWakes(Name(names, m))]
      ensures h == old(h).(waiting := old(h).waiting - {m})
    {
      hide NamedSeq, Tally, Runs, Name, Distinct, M.Queue.Valid, M.Queue.Full, M.Queue.Look;
      FullIs();
      NamedPush(names, q.putList, m);
      ElemsPush(q.putList, m);
      TallyMore(names, h.waiting, m);
      Took(Action.HeadWakes(Name(names, m)));
      q.PrependPut(m);
      h := h.(waiting := h.waiting - {m});
    }

    /** msgqueue_get takes get_mutex and reads *get_head */
    method GetEnters() returns (found: bool)
      requires Valid() && s.getter.NoGetter?
      modifies this`s, this`run
      ensures Valid() && s == Apply(old(s), Action.GetEnters) && run == old(run) + [Action.GetEnters]
      ensures found <==> q.getList != []
    {
      hide NamedSeq, Tally, Runs, Name, Distinct, M.Queue.Valid, M.Queue.Full, M.Queue.Look;
      FullIs();
      found := q.Look();
      Took(Action.GetEnters);
    }

    /** __msgqueue_swap, once there is a message or the queue does not block */
    method GetSwaps() returns (cnt: nat)
      requires Valid() && Enabled(s, Action.GetSwaps)
      modifies this`s, this`run, q`getIsFirst, q`putTail, q`msgCnt, q`getList, q`putList
      ensures Valid() && s == Apply(old(s), Action.GetSwaps) && run == old(run) + [Action.GetSwaps]
      ensures cnt == old(|q.putList|)
    {
      hide NamedSeq, Tally, Runs, Name, Distinct, M.Queue.Valid, M.Queue.Full, M.Queue.Look;
      FullIs();
      EmptiedIs();
      NamedNone(names);
      Took(Action.GetSwaps);
      cnt := q.Swap();
    }

    /** msgqueue_get takes the first message */
    method GetTakes() returns (m: M.Msg)
      requires Valid() && Enabled(s, Action.GetTakes)
      modifies this`s, this`run, q`head1, q`head2, q`getList
      ensures Valid() && s == Apply(old(s), Action.GetTakes) && run == old(run) + [Action.GetTakes]
      ensures old(q.getList) == [m] + q.getList
      ensures s.taken == old(s).taken + [Name(names, m)]
    {
      hide NamedSeq, Tally, Runs, Name, Distinct, M.Queue.Valid, M.Queue.Full, M.Queue.Look;
      FullIs();
      ReadyIs();
      NamedFirst(names, q.getList);
      Took(Action.GetTakes);
      m := q.Take();
    }

    /** msgqueue_set_nonblock and msg_queue_set_block */
    method SetNonblock(on: bool)
      requires Valid()
      modifies this`s, this`run, q`nonblock
      ensures Valid() && s == Apply(old(s), Action.SetNonblock(on)) && run == old(run) + [Action.SetNonblock(on)]
    {
      hide NamedSeq, Tally, Runs, Name, Distinct, M.Queue.Valid, M.Queue.Full, M.Queue.Look;
      FullIs();
      Took(Action.SetNonblock(on));
      q.SetNonblock(on);
    }

    lemma EmptiedIs()
      requires Valid() && s.getter.Emptied?
      ensures q.getList == [] && (q.msgCnt > 0 <==> s.put != [])
    {
      hide Runs;
      Facts();
      q.Reads();
    }

    lemma ReadyIs()
      requires Valid() && s.getter.Ready?
      ensures q.getList != []
    {
      hide Runs;
      Facts();
    }

    /** At every moment of every use: msg_cnt is the length of the put list and put_tail its last
        message, the cells are linked as the two lists, and a message has been given to the queue
        exactly as often as it was taken, is in the queue or is in the hands of a put_head. */
    lemma Always(m: Msg)
      requires Valid()
      ensures q.msgCnt == |q.putList| && q.putTail == M.Last(q.putList) && M.Linked(q.getList) && M.Linked(q.putList)
      ensures s.entered[m] == Count(s.taken, m) + Count(Contents(s), m) + Unplaced(s, m)
      ensures s.putter.NoPutter? || s.putter.FoundFull? ==> Contents(s) == NamedSeq(names, q.Contents())
    {
      hide Runs, Unplaced, Count;
      q.Reads();
      Conserved(max, run, s, m);
    }
  }
}
