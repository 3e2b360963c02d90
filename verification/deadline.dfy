/** The deadline of a reply while its chunks arrive (first_timeout, next_timeout,
    handle_request_result and append_message in src/kernel/communicator.cc): a response timeout
    from chunk to chunk and a receive timeout for the whole message, kept by one deadline in the
    poller and one field of the session. */
module Deadline {
  import opened Common
  import opened RedBlack
  import opened TimerQueue
  import Poller

  /** A number as the C type int; negative timeouts mean "never". */
  ghost predicate IsInt(x: int) { -0x8000_0000 <= x < 0x8000_0000 }

  /** (unsigned int)x */
  function Unsigned(x: int): int {
    if x < 0 then x + 0x1_0000_0000 else x
  }

  /** Division in C drops the fraction, whatever the sign. */
  function TruncDiv(a: int, b: int): int
    requires b > 0
  {
    if a >= 0 then a / b else -(-a / b)
  }

  lemma TruncDivNear(a: int, b: int)
    requires b > 0
    ensures -b < a - TruncDiv(a, b) * b < b
  {
    if a < 0 {
      assert -a == (-a / b) * b + (-a) % b;
    }
  }

  const MS := 1_000_000

  /** Milliseconds from begin to now the way next_timeout computes them. */
  function TimeUsed(begin: Timespec, now: Timespec): int {
    1000 * (now.sec - begin.sec) + TruncDiv(now.nsec - begin.nsec, MS)
  }

  lemma TimeUsedNear(begin: Timespec, now: Timespec)
    ensures -MS < Nanoseconds(now) - Nanoseconds(begin) - TimeUsed(begin, now) * MS < MS
  {
    TruncDivNear(now.nsec - begin.nsec, MS);
  }

  // ---------- deadlines, absent when negative timeouts mean there is none ----------

  ghost function Earlier(a: Option<int>, b: Option<int>): Option<int> {
    if a.None? then b else if b.None? then a else if a.value <= b.value then a else b
  }

  ghost function In(from: int, timeout: int): Option<int> {
    if timeout < 0 then None else Some(from + timeout * MS)
  }

  /** The end of the receive budget that began at `start`, but not before `since`. */
  ghost function BudgetEnd(since: int, start: int, receive: int): Option<int> {
    if receive < 0 then None else if since > start + receive * MS then Some(since) else Some(start + receive * MS)
  }

  /** min(now + response timeout, max(since, start + receive timeout)) */
  ghost function Ideal(now: int, since: int, start: int, response: int, receive: int): Option<int> {
    Earlier(In(now, response), BudgetEnd(since, start, receive))
  }

  /** Less than a millisecond apart. */
  ghost predicate Near(a: Option<int>, b: Option<int>) {
    a.Some? == b.Some? && (a.Some? ==> -MS < a.value - b.value < MS)
  }

  ghost predicate Clock(now: Timespec) { Normal(now) && now.sec >= 0 }

  class RecvSession {
    const response: int   // target->response_timeout
    const receive: int    // session->receive_timeout()
    const first: int      // session->first_timeout()
    var timeout: int
    var beginTime: Timespec
    /** The deadline of the read node. */
    var deadline: Option<int>
    ghost var since: int  // when it was set
    ghost var start: int  // when the budget began

    constructor (response: int, receive: int, first: int)
      requires IsInt(response) && IsInt(receive) && IsInt(first)
      ensures this.response == response && this.receive == receive && this.first == first
      ensures IsInt(this.response) && IsInt(this.receive)
    {
      this.response, this.receive, this.first := response, receive, first;
      timeout, beginTime, deadline := 0, Timespec(-1, -1), None;
      since, start := 0, 0;
    }

    /** Before the first chunk, with a first timeout of the session's own, or to be asked for
        one (after renew). */
    ghost predicate Untouched()
      reads this
    {
      timeout == -1 && beginTime.sec == -1
    }

    /** The budget is running: the session's timeout field still holds all of it. */
    ghost predicate Running()
      reads this
    {
      && Clock(beginTime) && Nanoseconds(beginTime) == start && start <= since
      && timeout == receive != 0 && response >= 0
      && Near(deadline, Ideal(since, since, start, response, receive))
    }

    /** The field is 0: the deadline is the end of the budget and stays where it is. */
    ghost predicate Settled()
      reads this
    {
      && timeout == 0 && start <= since && Near(deadline, BudgetEnd(since, start, receive))
      && (response >= 0 ==> receive >= 0 && deadline.value <= since + response * MS)
    }

    ghost predicate Valid(now: int)
      reads this
    {
      IsInt(response) && IsInt(receive) && since <= now && (Untouched() || Running() || Settled())
    }

    /** mpoller_set_timeout */
    method SetTimeout(t: int, now: Timespec)
      requires Normal(now)
      modifies this`deadline, this`since
      ensures deadline == In(Nanoseconds(now), t) && since == Nanoseconds(now)
    {
      deadline := None;
      if t >= 0 {
        Poller.DeadlineExact(now, t);
        var d := Poller.DeadlineAfter(now, t);
        deadline := Some(d.sec * NANO + d.nsec);
      }
      since := Nanoseconds(now);
    }

    /** first_timeout_recv: the session's budget begins now. */
    method FirstTimeoutRecv(now: Timespec) returns (t: int)
      requires IsInt(response) && IsInt(receive) && Clock(now)
      modifies this`timeout, this`beginTime, this`start
      ensures start == Nanoseconds(now) && In(start, t) == Ideal(start, start, start, response, receive)
      ensures timeout == 0 || (timeout == receive && beginTime == now && response >= 0)
      ensures timeout == 0 ==> t == receive && (response < 0 || 0 <= receive <= response)
    {
      timeout := receive;
      t := response;
      if t < 0 || Unsigned(timeout) <= Unsigned(t) {
        t := timeout;
        timeout := 0;
      } else {
        beginTime := now;
      }
      start := Nanoseconds(now);
    }

    /** next_timeout */
    method NextTimeout(now: Timespec) returns (t: int)
      requires Valid(Nanoseconds(now)) && Running() && Clock(now)
      modifies this`timeout
      ensures Near(In(Nanoseconds(now), t), Ideal(Nanoseconds(now), Nanoseconds(now), start, response, receive))
      ensures timeout == 0 || (timeout == old(timeout) && t == response)
      ensures timeout == 0 ==> (
        && receive >= 0 && 0 <= t <= response
        && Near(In(Nanoseconds(now), t), BudgetEnd(Nanoseconds(now), start, receive)))
    {
      t := response;
      if timeout > 0 {
        var timeUsed := TimeUsed(beginTime, now);
        TimeUsedNear(beginTime, now);
        var timeLeft := timeout - timeUsed;
        if timeLeft <= t {
          t := if timeLeft < 0 then 0 else timeLeft;
          timeout := 0;
        }
      }
    }

    /** The request has been sent (handle_request_result): the first deadline of the reply. */
    method Sent(now: Timespec)
      requires IsInt(response) && IsInt(receive) && Clock(now)
      modifies this
      ensures Valid(Nanoseconds(now)) && since == Nanoseconds(now)
      ensures first == 0 ==> start == since && deadline == Ideal(since, since, since, response, receive) && !Untouched()
      ensures first != 0 ==> Untouched() && beginTime.nsec == 0 && deadline == In(since, first)
    {
      var t := first;
      if t == 0 {
        t := FirstTimeoutRecv(now);
      } else {
        timeout := -1;
        beginTime := Timespec(-1, 0);
      }
      SetTimeout(t, now);
    }

    /** renew: the message starts over. */
    method Renew(ghost now: int)
      requires Valid(now)
      modifies this`timeout, this`beginTime
      ensures Valid(now) && Untouched() && beginTime.nsec < 0
    {
      timeout := -1;
      beginTime := Timespec(-1, -1);
    }

    /** The deadline that goes with sending. */
    lemma SentRight(now: int)
      requires Valid(now) && since == now
      requires first == 0 ==> start == since && deadline == Ideal(since, since, since, response, receive) && !Untouched()
      requires first != 0 ==> Untouched() && deadline == In(since, first)
      ensures Right(this, now, since, if first == 0 then Some(now) else None, deadline)
    {
    }

    lemma ValidLater(now: int, later: int)
      requires Valid(now) && now <= later
      ensures Valid(later)
    {
    }

    /** What Chunk leaves, seen at any time from then on if it is final, and while the budget
        lasts. */
    lemma InForce(now: int)
      requires Valid(now) && !Untouched() && (Running() ==> since == now)
      ensures AsWanted(response, receive, now, start, deadline)
      ensures Near(deadline, Ideal(now, since, start, response, receive))
    {
    }

    /** append_message when the message is still incomplete.  With the budget begun, the
        deadline in force afterwards is within a millisecond of what both timeouts ask for; once
        the field is 0 nothing is touched any more. */
    method Chunk(now: Timespec)
      requires Clock(now) && Valid(Nanoseconds(now))
      modifies this
      ensures Valid(Nanoseconds(now))
      ensures old(timeout == 0) ==> timeout == 0 && deadline == old(deadline) && since == old(since) && start == old(start)
      ensures old(timeout != 0) ==> since == Nanoseconds(now)
      ensures old(Running()) ==> start == old(start) && !Untouched()
      ensures old(Untouched() && (beginTime.nsec >= 0 || first == 0)) ==> start == since && !Untouched()
      ensures old(Untouched() && beginTime.nsec < 0) && first != 0 ==>
        Untouched() && beginTime.nsec == 0 && deadline == In(Nanoseconds(now), first)
      ensures !Untouched() ==> Near(deadline, Ideal(since, since, start, response, receive))
    {
      if timeout != 0 {
        var t := 0;
        if beginTime.sec < 0 {
          if beginTime.nsec < 0 {
            t := first;
          }
          if t == 0 {
            t := FirstTimeoutRecv(now);
          } else {
            beginTime := beginTime.(nsec := 0);
          }
        } else {
          t := NextTimeout(now);
        }
        SetTimeout(t, now);
      }
    }

    /** When the budget in force began. */
    ghost function Budget(): Option<int>
      reads this
    {
      if Untouched() then None else Some(start)
    }

    /** The first timeout has been asked for, if it runs. */
    ghost predicate Phase()
      reads this
    {
      Untouched() ==> beginTime.nsec == 0
    }

    /** One chunk, with which the message may start over. */
    method Step(now: Timespec, renew: bool)
      requires Clock(now) && Valid(Nanoseconds(now)) && Phase()
      modifies this
      ensures Valid(Nanoseconds(now)) && Phase()
      ensures Right(this, Nanoseconds(now), since, Budget(), deadline)
      ensures Budget() == (
        if renew then if first == 0 then Some(Nanoseconds(now)) else None
        else if old(Budget()).Some? then old(Budget()) else Some(Nanoseconds(now)))
      ensures since == Nanoseconds(now) || (since == old(since) && deadline == old(deadline))
    {
      hide Near, Earlier, In, Ideal, BudgetEnd, AsWanted;
      if renew {
        Renew(Nanoseconds(now));
      }
      Chunk(now);
      if !Untouched() { InForce(Nanoseconds(now)); }
    }
  }

  /** The deadline that was final when it was set stays right for every later chunk that comes
      before it: the response timeout counted from that chunk cannot end sooner. */
  lemma SettledStaysIdeal(s: RecvSession, now: int)
    requires s.Valid(now) && s.Settled()
    ensures Near(s.deadline, Ideal(now, s.since, s.start, s.response, s.receive))
  {
  }

  ghost predicate Ticking(times: seq<Timespec>) {
    && (forall k :: 0 <= k < |times| ==> Clock(times[k]))
    && forall j, k :: 0 <= j < k < |times| ==> Nanoseconds(times[j]) <= Nanoseconds(times[k])
  }

  /** When the receive budget in force at times[k] began: as soon as the request is sent, or with
      the first chunk after it if the session has a first timeout of its own; and anew whenever the
      message starts over.  None as long as the first timeout runs. */
  ghost function Begun(first: int, times: seq<Timespec>, renewed: seq<bool>, k: nat): Option<int>
    requires k < |times| == |renewed|
  {
    if k == 0 || renewed[k] then if first == 0 then Some(Nanoseconds(times[k])) else None
    else if Begun(first, times, renewed, k - 1).Some? then Begun(first, times, renewed, k - 1)
    else Some(Nanoseconds(times[k]))
  }

  /** While the budget lasts, `deadline` is within a millisecond of the earlier of the two: the
      response timeout counted from `now`, and the receive timeout counted from `start`. */
  ghost predicate AsWanted(response: int, receive: int, now: int, start: int, deadline: Option<int>) {
    receive < 0 || now <= start + receive * MS ==> Near(deadline, Earlier(In(now, response), In(start, receive)))
  }

  /** What is asked of a deadline that was in force from `setAt` to `now` on, at least. */
  ghost predicate Right(s: RecvSession, now: int, setAt: int, begun: Option<int>, deadline: Option<int>) {
    match begun
    case None => deadline == In(now, s.first)
    case Some(start) =>
      && AsWanted(s.response, s.receive, now, start, deadline)
      && Near(deadline, Ideal(now, setAt, start, s.response, s.receive))
  }

  /** A whole reply: the request is sent at times[0] and an incomplete chunk comes at each later
      time, with which the message may start over.  As long as the first timeout runs it counts from
      the last chunk.  Then the deadline in force after the chunk at times[k] is within a millisecond
      of the earlier of times[k] plus the response timeout and the end of the budget; when the budget
      had run out by the time setAt[k] at which the deadline was last set, it ends then. */
  method Receive(s: RecvSession, times: seq<Timespec>, renewed: seq<bool>) returns (armed: seq<Option<int>>, ghost setAt: seq<int>)
    requires IsInt(s.response) && IsInt(s.receive) && 0 < |times| == |renewed| && Ticking(times)
    modifies s
    ensures |armed| == |setAt| == |times|
    ensures forall k :: 0 <= k < |times| ==> Right(s, Nanoseconds(times[k]), setAt[k], Begun(s.first, times, renewed, k), armed[k])
    ensures forall k :: 0 < k < |times| ==>
      setAt[k] == Nanoseconds(times[k]) || (setAt[k] == setAt[k - 1] && armed[k] == armed[k - 1])
  {
    hide Right, Clock;
    s.Sent(times[0]);
    s.SentRight(Nanoseconds(times[0]));
    armed, setAt := [s.deadline], [s.since];
    for i := 1 to |times|
      invariant |armed| == |setAt| == i && s.Valid(Nanoseconds(times[i - 1])) && s.Phase()
      invariant armed[i - 1] == s.deadline && setAt[i - 1] == s.since
      invariant s.Budget() == Begun(s.first, times, renewed, i - 1)
      invariant forall k :: 0 <= k < i ==> Right(s, Nanoseconds(times[k]), setAt[k], Begun(s.first, times, renewed, k), armed[k])
      invariant forall k :: 0 < k < i ==>
        setAt[k] == Nanoseconds(times[k]) || (setAt[k] == setAt[k - 1] && armed[k] == armed[k - 1])
    {
      s.ValidLater(Nanoseconds(times[i - 1]), Nanoseconds(times[i]));
      s.Step(times[i], renewed[i]);
      armed, setAt := armed + [s.deadline], setAt + [s.since];
    }
  }
}
