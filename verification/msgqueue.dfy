/** The two-buffer message queue (src/kernel/msgqueue.cc) as linked cells.  Look, PrependGet,
    PrependPut, Put, Swap and Take are its critical sections; PutHead and Get put them together as
    one caller does when nobody comes in between.  Module QueueSteps says what happens when somebody
    does. */
module MsgQueue {
  import opened Common

  /** A message; `next` is the word at `linkoff`. */
  class Msg {
    var next: Msg?
  }

  ghost function First(s: seq<Msg>): Msg? {
    if s == [] then null else s[0]
  }

  ghost function Last(s: seq<Msg>): Msg? {
    if s == [] then null else s[|s| - 1]
  }

  ghost function NextOf(s: seq<Msg>, i: nat): Msg? {
    if i + 1 < |s| then s[i + 1] else null
  }

  /** The messages of s, each linked to the next one and the last one to null. */
  ghost predicate Linked(s: seq<Msg>)
    reads Elems(s)
  {
    forall i :: 0 <= i < |s| ==> s[i].next == NextOf(s, i)
  }

  lemma PrependedLinks(m: Msg, s: seq<Msg>)
    requires Linked(s) && m.next == First(s)
    ensures Linked([m] + s)
  {
    var t := [m] + s;
    forall i | 0 <= i < |t| ensures t[i].next == NextOf(t, i) {
      if i > 0 {
        var j := i - 1;
        assert s[j].next == NextOf(s, j);
      }
    }
  }

  lemma Prepended(m: Msg, s: seq<Msg>)
    requires NoDup(s) && Linked(s) && m !in s && m.next == First(s)
    ensures NoDup([m] + s) && Linked([m] + s) && First([m] + s) == m && Elems([m] + s) == {m} + Elems(s)
    ensures Last([m] + s) == if s == [] then m else Last(s)
  {
    hide Linked;
    PrependedLinks(m, s);
    assert forall x | x in s :: x in [m] + s;
  }

  /** The messages of s but the last, each linked to the next one. */
  ghost predicate LinkedUp(s: seq<Msg>)
    requires s != []
    reads Elems(s[..|s| - 1])
  {
    forall i :: 0 <= i < |s| - 1 ==> s[..|s| - 1][i].next == NextOf(s, i)
  }

  lemma LastApart(s: seq<Msg>)
    requires NoDup(s) && Linked(s) && s != []
    ensures LinkedUp(s) && Last(s) !in Elems(s[..|s| - 1]) && Last(s) in Elems(s)
  {
    forall i | 0 <= i < |s| - 1 ensures s[..|s| - 1][i].next == NextOf(s, i) { assert s[i].next == NextOf(s, i); }
  }

  lemma Appended(s: seq<Msg>, m: Msg)
    requires NoDup(s) && m !in s && m.next == null && (s != [] ==> LinkedUp(s) && Last(s).next == m)
    ensures NoDup(s + [m]) && Linked(s + [m]) && Last(s + [m]) == m && First(s + [m]) == (if s == [] then m else First(s))
    ensures Elems(s + [m]) == Elems(s) + {m}
  {
    var t := s + [m];
    forall i | 0 <= i < |t| ensures t[i].next == NextOf(t, i) {
      if i < |s| - 1 { assert s[..|s| - 1][i].next == NextOf(s, i); }
    }
    assert forall x | x in s :: x in t;
  }

  lemma Popped(s: seq<Msg>)
    requires NoDup(s) && Linked(s) && s != []
    ensures NoDup(s[1..]) && Linked(s[1..]) && s[0].next == First(s[1..]) && s == [s[0]] + s[1..]
    ensures Elems(s[1..]) == Elems(s) - {s[0]}
  {
    var t := s[1..];
    assert forall i :: 0 <= i < |t| ==> t[i] == s[i + 1];
    forall i | 0 <= i < |t| ensures t[i].next == NextOf(t, i) {
      assert s[i + 1].next == NextOf(s, i + 1);
    }
    assert s[0].next == NextOf(s, 0);
  }

  class Queue {
    var msgMax: nat
    var msgCnt: nat
    var nonblock: bool
    var head1: Msg?
    var head2: Msg?
    /** get_head points to head1, and put_head to head2; or the other way round. */
    var getIsFirst: bool
    /** The last message of the put list, or null when put_tail points to put_head's own cell. */
    var putTail: Msg?
    ghost var getList: seq<Msg>
    ghost var putList: seq<Msg>

    constructor (maxlen: nat)
      ensures Valid() && Contents() == [] && msgMax == maxlen && !nonblock && getList == putList == []
    {
      msgMax, msgCnt, nonblock := maxlen, 0, false;
      head1, head2, putTail := null, null, null;
      getIsFirst := true;
      getList, putList := [], [];
    }

    function GetHead(): Msg?
      reads this
    {
      if getIsFirst then head1 else head2
    }

    function PutHeadCell(): Msg?
      reads this
    {
      if getIsFirst then head2 else head1
    }

    ghost predicate Valid()
      reads this, Elems(getList), Elems(putList)
    {
      && NoDup(getList) && NoDup(putList) && Elems(getList) !! Elems(putList)
      && Linked(getList) && Linked(putList)
      && GetHead() == First(getList) && PutHeadCell() == First(putList)
      && putTail == Last(putList) && msgCnt == |putList|
    }

    /** The queue as one sequence. */
    ghost function Contents(): seq<Msg>
      reads this
    {
      getList + putList
    }

    /** The test in front of put_cond.wait. */
    predicate Full()
      reads this
    {
      msgCnt == msgMax && !nonblock
    }

    method SetGetHead(m: Msg?)
      modifies this`head1, this`head2
      ensures GetHead() == m && PutHeadCell() == old(PutHeadCell())
    {
      if getIsFirst {
        head1 := m;
      } else {
        head2 := m;
      }
    }

    method SetPutHead(m: Msg?)
      modifies this`head1, this`head2
      ensures PutHeadCell() == m && GetHead() == old(GetHead())
    {
      if getIsFirst {
        head2 := m;
      } else {
        head1 := m;
      }
    }

    /** msgqueue_set_nonblock and msg_queue_set_block */
    method SetNonblock(on: bool)
      requires Valid()
      modifies this`nonblock
      ensures Valid() && nonblock == on
    {
      nonblock := on;
    }

    /** msg_queue_put, once there is room: the message goes to the end. */
    method Put(msg: Msg)
      requires Valid() && !Full() && msg !in Contents()
      modifies this`head1, this`head2, this`putTail, this`msgCnt, this`putList, msg, Elems(putList)
      ensures Valid() && Contents() == old(Contents()) + [msg] && putList == old(putList) + [msg]
      ensures GetHead() == old(GetHead())
    {
      hide NoDup, Linked, LinkedUp, First;
      if putList != [] { LastApart(putList); }
      msg.next := null;
      if putTail == null {
        SetPutHead(msg);
      } else {
        putTail.next := msg;
      }
      putTail := msg;
      msgCnt := msgCnt + 1;
      Appended(putList, msg);
      putList := putList + [msg];
      assert Contents() == old(Contents()) + [msg];
    }

    /** `*get_head` read: are there messages in the get list? */
    predicate Look()
      reads this
    {
      GetHead() != null
    }

    /** What the fields tell about the lists. */
    lemma Reads()
      requires Valid()
      ensures (Look() <==> getList != []) && msgCnt == |putList| && putTail == Last(putList)
    {
    }

    /** msgqueue_put_head with get_mutex alone: the message goes in front of the get list, even if
        that has become empty since.  Nothing of the put side is touched. */
    method PrependGet(msg: Msg)
      requires Valid() && msg !in Contents()
      modifies this`head1, this`head2, this`getList, msg
      ensures Valid() && getList == [msg] + old(getList) && PutHeadCell() == old(PutHeadCell())
    {
      hide NoDup, Linked, Last;
      msg.next := GetHead();
      Prepended(msg, getList);
      SetGetHead(msg);
      getList := [msg] + getList;
    }

    /** msgqueue_put_head with put_mutex: the message goes in front of the put list; after a wait
        the get list need not be empty any more.  Nothing of the get side is touched. */
    method PrependPut(msg: Msg)
      requires Valid() && msg !in Contents()
      modifies this`head1, this`head2, this`putTail, this`msgCnt, this`putList, msg
      ensures Valid() && putList == [msg] + old(putList) && GetHead() == old(GetHead())
    {
      hide NoDup, Linked, Last;
      msg.next := PutHeadCell();
      Prepended(msg, putList);
      if msg.next == null {
        putTail := msg;
      }
      SetPutHead(msg);
      msgCnt := msgCnt + 1;
      putList := [msg] + putList;
    }

    /** msgqueue_put_head when nobody comes in between: in front of the get list if that has
        messages, in front of the put list otherwise; either way in front of everything. */
    method PutHead(msg: Msg)
      requires Valid() && msg !in Contents() && (getList == [] ==> !Full())
      modifies this, msg
      ensures Valid() && Contents() == [msg] + old(Contents())
      ensures old(getList) != [] ==> putList == old(putList)
      ensures old(getList) == [] ==> getList == []
    {
      hide Queue.Valid, Queue.Look;
      Reads();
      if Look() {
        PrependGet(msg);
      } else {
        PrependPut(msg);
      }
      assert Contents() == [msg] + old(Contents());
    }

    /** __msgqueue_swap, once there is a message or the queue does not block. */
    method Swap() returns (cnt: nat)
      requires Valid() && getList == [] && (msgCnt > 0 || nonblock)
      modifies this`getIsFirst, this`putTail, this`msgCnt, this`getList, this`putList
      ensures Valid() && Contents() == old(Contents()) && cnt == old(|putList|)
      ensures getList == old(putList) && putList == []
    {
      cnt := msgCnt;
      getIsFirst := !getIsFirst;
      putTail := null;
      msgCnt := 0;
      getList, putList := putList, getList;
    }

    /** msgqueue_get with get_mutex: the first message of the get list. */
    method Take() returns (msg: Msg)
      requires Valid() && getList != []
      modifies this`head1, this`head2, this`getList
      ensures Valid() && old(getList) == [msg] + getList && PutHeadCell() == old(PutHeadCell())
    {
      hide NoDup, Linked;
      msg := GetHead();
      assert msg == getList[0];
      Popped(getList);
      SetGetHead(msg.next);
      getList := getList[1..];
    }

    /** msgqueue_get, once there is a message or the queue does not block, when nobody comes in
        between. */
    method Get() returns (msg: Msg?)
      requires Valid() && (Contents() != [] || nonblock)
      modifies this
      ensures Valid()
      ensures old(Contents()) == [] <==> msg == null
      ensures old(Contents()) == [] ==> Contents() == []
      ensures old(Contents()) != [] ==> old(Contents()) == [msg] + Contents()
      ensures old(getList) != [] ==> putList == old(putList)
    {
      hide Queue.Valid, Queue.Look;
      Reads();
      var cnt := 1;
      if !Look() {
        cnt := Swap();
      }
      if cnt > 0 {
        msg := Take();
      } else {
        msg := null;
      }
    }
  }
}
