/** The bytes of one outgoing message: the synchronous attempt of send_message_sync
    (src/kernel/communicator.cc), the copy made by send_message_async, and the poller's
    __poller_handle_write (src/kernel/poller.cc). */
module SendPath {
  import opened Common

  type byte = b: int | 0 <= b < 256

  /** What is left to send of one struct iovec: advancing iov_base and shortening iov_len
      drops the front. */
  type Iov = seq<byte>

  const IOV_MAX := 1024
  const ENCODE_IOV_MAX := 2048

  function Flat(v: seq<Iov>): seq<byte> {
    if v == [] then [] else v[0] + Flat(v[1..])
  }

  lemma {:induction false} FlatSum(a: seq<Iov>, b: seq<Iov>)
    ensures Flat(a + b) == Flat(a) + Flat(b)
  {
    if a == [] {
      assert a + b == b;
    } else {
      var s := a + b;
      FlatSum(a[1..], b);
      assert s[1..] == a[1..] + b && s[0] == a[0];
      assert Flat(s) == a[0] + Flat(s[1..]);
    }
  }

  lemma FlatEmpty() ensures Flat([]) == [] {}

  lemma {:induction false} FlatSplit(v: seq<Iov>, i: nat)
    requires i <= |v|
    ensures Flat(v) == Flat(v[..i]) + Flat(v[i..])
  {
    hide Flat;
    var a, b := v[..i], v[i..];
    assert a + b == v;
    FlatSum(a, b);
  }

  lemma {:induction false} FlatCons(x: Iov, v: seq<Iov>)
    ensures Flat([x] + v) == x + Flat(v)
  {
    assert ([x] + v)[1..] == v;
  }

  lemma {:induction false} FlatNext(v: seq<Iov>, i: nat)
    requires i < |v|
    ensures Flat(v[i..]) == v[i] + Flat(v[i + 1..])
    ensures |Flat(v[..i + 1])| == |Flat(v[..i])| + |v[i]|
  {
    hide Flat;
    assert v[i..] == [v[i]] + v[i + 1..];
    FlatCons(v[i], v[i + 1..]);
    assert v[..i + 1] == v[..i] + ([v[i]] + []);
    FlatSum(v[..i], [v[i]] + []);
    FlatCons(v[i], []);
    FlatEmpty();
  }

  /** A non-blocking socket: `wire` is everything it has taken; and how often it has failed for the
      time being (EAGAIN), and how often for good. */
  class Socket {
    var wire: seq<byte>
    ghost var agains: nat
    ghost var fatals: nat

    constructor ()
      ensures wire == [] && agains == fatals == 0
    {
      wire := [];
      agains, fatals := 0, 0;
    }

    /** writev of at most IOV_MAX vectors: any prefix of the data, though not none of it if there is
        some; or failure, with or without EAGAIN. */
    method Writev(iov: array<Iov>, from: nat, cnt: nat) returns (n: int, again: bool)
      requires from + cnt <= iov.Length && cnt <= IOV_MAX
      modifies this
      ensures agains == old(agains) + One(n < 0 && again) && fatals == old(fatals) + One(n < 0 && !again)
      ensures n < 0 ==> wire == old(wire)
      ensures n >= 0 ==> n <= |Flat(iov[from..from + cnt])| && wire == old(wire) + Flat(iov[from..from + cnt])[..n]
      ensures Flat(iov[from..from + cnt]) != [] ==> n != 0
    {
      var data := Flat(iov[from..from + cnt]);
      n, again := *, *;
      if n > |data| {
        n := |data|;
      }
      if n == 0 && data != [] {
        n := -1;
      }
      if n >= 0 {
        wire := wire + data[..n];
      } else if again {
        agains := agains + 1;
      } else {
        fatals := fatals + 1;
      }
    }
  }

  /** The sent bytes followed by the unsent ones are what they were. */
  ghost predicate Conserved(wire0: seq<byte>, left0: seq<byte>, wire: seq<byte>, left: seq<byte>) {
    wire + left == wire0 + left0
  }

  /** writev looks at the first IOV_MAX vectors only; its count is a prefix of all data. */
  lemma PrefixOfAll(v: seq<Iov>, k: nat, n: nat)
    requires k <= |v| && n <= |Flat(v[..k])|
    ensures n <= |Flat(v)| && Flat(v)[..n] == Flat(v[..k])[..n]
  {
    FlatSplit(v, k);
  }

  lemma Regroup(p: seq<byte>, x: seq<byte>, n: nat, r: seq<byte>)
    requires n <= |x|
    ensures p + (x + r) == (p + x[..n]) + (x[n..] + r)
    ensures |p + x[..n]| == |p| + n && (p + (x + r))[..|p| + n] == p + x[..n]
  {
  }

  /** `w` is what v is after `i` whole vectors and `n` bytes of the next one. */
  ghost predicate CutAt(v: seq<Iov>, i: nat, n: nat, w: seq<Iov>) {
    i < |v| && n <= |v[i]| && |w| == |v| - i && w[0] == v[i][n..] && forall j :: 1 <= j < |w| ==> w[j] == v[i + j]
  }

  lemma CutMade(v: seq<Iov>, i: nat, n: nat, w: seq<Iov>)
    requires i < |v| && n <= |v[i]| && |w| == |v| - i && w[0] == v[i][n..] && forall j :: 1 <= j < |w| ==> w[j] == v[i + j]
    ensures CutAt(v, i, n, w)
  {
  }

  /** Skipping `i` whole vectors and `n` bytes of the next skips that many bytes. */
  lemma {:induction false} Skipped(v: seq<Iov>, i: nat, n: nat, w: seq<Iov>)
    requires CutAt(v, i, n, w)
    ensures |Flat(v[..i])| + n <= |Flat(v)| && Flat(v) == Flat(v)[..|Flat(v[..i])| + n] + Flat(w)
  {
    hide Flat;
    var rest := v[i + 1..];
    FlatSplit(v, i);
    FlatNext(v, i);
    assert w == [v[i][n..]] + rest;
    FlatCons(v[i][n..], rest);
    Regroup(Flat(v[..i]), v[i], n, Flat(rest));
  }

  lemma AllSkipped(v: seq<Iov>, n: nat)
    requires n <= |Flat(v[|v|..])|
    ensures n == 0 && Flat(v[..|v|]) == Flat(v) == Flat(v)[..|Flat(v)|] + Flat([])
  {
    assert v[..|v|] == v && v[|v|..] == [];
    FlatEmpty();
  }

  /** The loop of send_message_sync over the vectors after a writev of `n0` bytes. */
  method SkipSent(vectors: array<Iov>, from: nat, cnt: nat, n0: nat) returns (i: nat)
    requires from + cnt <= vectors.Length && n0 <= |Flat(vectors[from..from + cnt])|
    modifies vectors
    ensures i <= cnt && vectors[..from + i] == old(vectors[..from + i])
    ensures vectors[from + cnt..] == old(vectors[from + cnt..])
    ensures old(Flat(vectors[from..from + cnt])) == old(Flat(vectors[from..from + cnt]))[..n0] + Flat(vectors[from + i..from + cnt])
    ensures i == 0 && cnt > 0 ==> n0 < old(|vectors[from]|)
  {
    hide Flat;
    ghost var v := vectors[from..from + cnt];
    var n := n0;
    i := 0;
    assert v[0..] == v && v[..0] == [];
    FlatEmpty();
    while i < cnt
      invariant i <= cnt && 0 <= n && vectors[..] == old(vectors[..])
      invariant n0 == |Flat(v[..i])| + n && n <= |Flat(v[i..])|
      invariant i == 0 ==> n == n0
    {
      FlatNext(v, i);
      if n >= |vectors[from + i]| {
        n := n - |vectors[from + i]|;
      } else {
        vectors[from + i] := vectors[from + i][n..];
        Skipped(v, i, n, vectors[from + i..from + cnt]);
        break;
      }
      i := i + 1;
    }
    if i == cnt {
      AllSkipped(v, n);
      assert vectors[from + i..from + cnt] == [];
    }
  }

  function Batch(cnt: nat): (k: nat)
    ensures k <= cnt && k <= IOV_MAX && (cnt > 0 ==> k > 0)
  {
    if cnt <= IOV_MAX then cnt else IOV_MAX
  }

  lemma ConservedOn(wire0: seq<byte>, left0: seq<byte>, wire: seq<byte>, left: seq<byte>, wire1: seq<byte>, left1: seq<byte>, n: nat)
    requires Conserved(wire0, left0, wire, left) && n <= |left| && wire1 == wire + left[..n] && left == left[..n] + left1
    ensures Conserved(wire0, left0, wire1, left1) && |left1| == |left| - n
  {
    assert wire + left == wire + left[..n] + left1;
  }

  lemma BatchNotEmpty(v: seq<Iov>)
    requires v != [] && v[0] != []
    ensures Flat(v[..Batch(|v|)]) != []
  {
    var b := v[..Batch(|v|)];
    assert b[0..] == b && b[0] == v[0];
    FlatNext(b, 0);
  }

  /** One round of the loop of send_message_sync: `i` vectors are done with. */
  method SyncRound(sock: Socket, vectors: array<Iov>, from: nat, cnt: nat) returns (n: int, again: bool, i: nat)
    requires from + cnt <= vectors.Length && cnt > 0
    modifies sock, vectors
    ensures i <= cnt && vectors[from + cnt..] == old(vectors[from + cnt..])
    ensures sock.agains == old(sock.agains) + One(n < 0 && again) && sock.fatals == old(sock.fatals) + One(n < 0 && !again)
    ensures n < 0 ==> sock.wire == old(sock.wire) && vectors[from..from + cnt] == old(vectors[from..from + cnt]) && i == 0
    ensures n >= 0 ==> (
      && n <= old(|Flat(vectors[from..from + cnt])|)
      && sock.wire == old(sock.wire) + old(Flat(vectors[from..from + cnt]))[..n]
      && old(Flat(vectors[from..from + cnt])) == old(Flat(vectors[from..from + cnt]))[..n] + Flat(vectors[from + i..from + cnt])
      && (i > 0 || n > 0))
  {
    hide Flat, Batch;
    ghost var v := vectors[from..from + cnt];
    i := 0;
    var k := Batch(cnt);
    n, again := sock.Writev(vectors, from, k);
    if n >= 0 {
      assert vectors[from..from + k] == v[..k];
      PrefixOfAll(v, k, n);
      if v[0] != [] { BatchNotEmpty(v); }
      i := SkipSent(vectors, from, cnt, n);
    }
  }

  /** send_message_sync: 0 when all is sent; -1 exactly if the socket failed for good; and exactly
      if it would block, the number of vectors at the end of the array that still hold unsent
      data. */
  method SendSync(sock: Socket, vectors: array<Iov>, all: nat) returns (ret: int)
    requires all <= vectors.Length
    modifies sock, vectors
    ensures -1 <= ret <= all && vectors[all..] == old(vectors[all..])
    ensures ret >= 0 ==> Conserved(old(sock.wire), old(Flat(vectors[..all])), sock.wire, Flat(vectors[all - ret..all]))
    ensures ret == -1 ==> exists rest :: Conserved(old(sock.wire), old(Flat(vectors[..all])), sock.wire, rest)
    ensures sock.fatals == old(sock.fatals) + One(ret == -1) && sock.agains == old(sock.agains) + One(ret > 0)
  {
    hide Flat, Conserved;
    ghost var wire0, left0 := sock.wire, Flat(vectors[..all]);
    var from, cnt := 0, all;
    ConservedStart(wire0, left0);
    assert vectors[0..all] == vectors[..all];
    while cnt > 0
      invariant 0 <= cnt && 0 <= from && from + cnt == all && vectors[all..] == old(vectors[all..])
      invariant Conserved(wire0, left0, sock.wire, Flat(vectors[from..all]))
      invariant sock.fatals == old(sock.fatals) && sock.agains == old(sock.agains)
      decreases cnt, |Flat(vectors[from..all])|
    {
      ghost var wire, left := sock.wire, Flat(vectors[from..all]);
      var n, again, i := SyncRound(sock, vectors, from, cnt);
      if n < 0 {
        return if again then cnt else -1;
      }
      ConservedOn(wire0, left0, wire, left, sock.wire, Flat(vectors[from + i..all]), n);
      from, cnt := from + i, cnt - i;
    }
    ret := 0;
  }

  lemma ConservedStart(wire: seq<byte>, left: seq<byte>)
    ensures Conserved(wire, left, wire, left)
  {
  }

  datatype WriteStatus = Finished | Failed | Waiting

  /** The part of a poller node that a write operation changes. */
  class WriteNode {
    const iov: array<Iov>
    var at: nat        // write_iov points at this place of the array
    var iovcnt: nat

    /** send_message_async copies the remaining vectors. */
    constructor (vectors: array<Iov>, from: nat, cnt: nat)
      requires from + cnt <= vectors.Length
      ensures Valid() && fresh(iov) && iovcnt == cnt && Left() == Flat(vectors[from..from + cnt])
    {
      var copy := new Iov[cnt](_ => []);
      for i := 0 to cnt
        invariant copy[..i] == vectors[from..from + i]
      {
        copy[i] := vectors[from + i];
      }
      iov := copy;
      at, iovcnt := 0, cnt;
      new;
      assert iov[0..cnt] == vectors[from..from + cnt];
    }

    ghost predicate Valid()
      reads this
    {
      at + iovcnt <= iov.Length
    }

    ghost function Left(): seq<byte>
      requires Valid()
      reads this, iov
    {
      Flat(iov[at..at + iovcnt])
    }

    /** The inner loop of __poller_handle_write after a writev of `n0` bytes: a vector that is
        sent entirely is left empty and stepped over. */
    method Advance(n0: nat)
      requires Valid() && iovcnt > 0 && n0 <= |Left()|
      modifies this`at, this`iovcnt, iov
      ensures Valid() && at + iovcnt == old(at + iovcnt) && iovcnt <= old(iovcnt)
      ensures old(Left()) == old(Left())[..n0] + Left()
      ensures iovcnt == old(iovcnt) ==> n0 < old(|iov[at]|)
    {
      hide Flat, CutAt;
      ghost var v := iov[at..at + iovcnt];
      ghost var end, start := at + iovcnt, at;
      var nleft := n0;
      ghost var i := 0;
      assert v[0..] == v && v[..0] == [];
      FlatEmpty();
      while iovcnt > 0
        invariant 0 <= i <= |v| == end - start && at == start + i && at + iovcnt == end <= iov.Length && 0 <= nleft
        invariant n0 == |Flat(v[..i])| + nleft && nleft <= |Flat(v[i..])|
        invariant forall j :: i <= j < |v| ==> iov[start + j] == v[j]
        invariant i == 0 ==> nleft == n0
        decreases iovcnt
      {
        FlatNext(v, i);
        if nleft >= |iov[at]| {
          nleft := nleft - |iov[at]|;
          iov[at] := [];
          at := at + 1;
          iovcnt := iovcnt - 1;
          i := i + 1;
        } else {
          iov[at] := iov[at][nleft..];
          CutMade(v, i, nleft, iov[at..end]);
          Skipped(v, i, nleft, iov[at..end]);
          break;
        }
      }
      if iovcnt == 0 {
        AllSkipped(v, nleft);
        assert iov[at..end] == [];
      }
    }

    /** The first k of the n vectors from `at` on. */
    lemma Front(at: nat, n: nat, k: nat)
      requires at + n <= iov.Length && k <= n
      ensures iov[at..at + k] == iov[at..at + n][..k]
    {
      var a, b := iov[at..at + k], iov[at..at + n][..k];
      forall i | 0 <= i < k ensures a[i] == b[i] {
        assert a[i] == iov[at + i];
        assert iov[at..at + n][i] == iov[at + i];
      }
    }

    /** One round of the outer loop of __poller_handle_write. */
    method WriteRound(sock: Socket) returns (n: int, again: bool)
      requires Valid() && iovcnt > 0
      modifies sock, this`at, this`iovcnt, iov
      ensures Valid() && iovcnt <= old(iovcnt)
      ensures sock.agains == old(sock.agains) + One(n < 0 && again) && sock.fatals == old(sock.fatals) + One(n < 0 && !again)
      ensures n < 0 ==> sock.wire == old(sock.wire) && Left() == old(Left()) && iovcnt == old(iovcnt)
      ensures n >= 0 ==> (
        && n <= old(|Left()|) && sock.wire == old(sock.wire) + old(Left())[..n] && old(Left()) == old(Left())[..n] + Left()
        && (iovcnt < old(iovcnt) || n > 0))
    {
      hide Flat, Batch;
      ghost var v := iov[at..at + iovcnt];
      var k := Batch(iovcnt);
      n, again := sock.Writev(iov, at, k);
      if n >= 0 {
        Front(at, iovcnt, k);
        PrefixOfAll(v, k, n);
        if v[0] != [] { BatchNotEmpty(v); }
        Advance(n);
      }
    }

    /** __poller_handle_write, up to the removal of the node: FINISHED exactly when no vector is
        left, and the bytes that have gone out plus those still held are the same as before.
        `partial` is what the partial_written callback answers. */
    method HandleWrite(sock: Socket, partial: int) returns (status: WriteStatus)
      requires Valid()
      modifies sock, this`at, this`iovcnt, iov
      ensures Valid() && Conserved(old(sock.wire), old(Left()), sock.wire, Left())
      ensures status == Finished <==> iovcnt == 0
      ensures status == Finished ==> Left() == []
      ensures old(sock.fatals) <= sock.fatals <= old(sock.fatals) + 1 && (sock.fatals > old(sock.fatals) ==> iovcnt > 0)
      ensures status == Failed <==> iovcnt > 0 && (sock.fatals > old(sock.fatals) || (sock.wire != old(sock.wire) && partial < 0))
      ensures sock.agains == old(sock.agains) + One(iovcnt > 0 && sock.fatals == old(sock.fatals))
    {
      hide Flat, Conserved;
      FlatEmpty();
      ghost var wire0, left0 := sock.wire, Left();
      var count, ret, stuck := 0, 0, false;
      ConservedStart(wire0, left0);
      while iovcnt > 0 && !stuck
        invariant Valid() && Conserved(wire0, left0, sock.wire, Left()) && 0 <= count
        invariant count == |sock.wire| - |wire0|
        invariant if stuck then iovcnt > 0 else ret == 0
        invariant ret == 0 || ret == -1
        invariant sock.fatals == old(sock.fatals) + One(ret < 0)
        invariant sock.agains == old(sock.agains) + One(stuck && ret == 0)
        decreases !stuck, iovcnt, |Left()|
      {
        ghost var wire, left := sock.wire, Left();
        var n, again := WriteRound(sock);
        if n < 0 {
          ret := if again then 0 else -1;
          stuck := true;
        } else {
          count := count + n;
          ConservedOn(wire0, left0, wire, left, sock.wire, Left(), n);
        }
      }
      WireGrows(wire0, left0, sock.wire, Left());
      assert iovcnt == 0 ==> iov[at..at + iovcnt] == [];
      if iovcnt > 0 && ret >= 0 {
        if count == 0 || partial >= 0 {
          return Waiting;
        }
      }
      status := if iovcnt == 0 then Finished else Failed;
    }
  }

  lemma ConservedThen(wire0: seq<byte>, left0: seq<byte>, wire: seq<byte>, left: seq<byte>, wire1: seq<byte>, left1: seq<byte>)
    requires Conserved(wire0, left0, wire, left) && Conserved(wire, left, wire1, left1)
    ensures Conserved(wire0, left0, wire1, left1)
  {
  }

  lemma NothingLeft(wire0: seq<byte>, left0: seq<byte>, wire: seq<byte>)
    requires Conserved(wire0, left0, wire, [])
    ensures wire == wire0 + left0
  {
    assert wire + [] == wire;
  }

  lemma WireGrows(wire0: seq<byte>, left0: seq<byte>, wire: seq<byte>, left: seq<byte>)
    requires Conserved(wire0, left0, wire, left) && |wire| >= |wire0|
    ensures |wire| == |wire0| <==> wire == wire0
  {
    if |wire| == |wire0| {
      assert wire == (wire + left)[..|wire|] == (wire0 + left0)[..|wire0|] == wire0;
    }
  }

  /** Communicator::send_message followed by whatever the poller does with the write node: after
      any number of events, with any short writes and EAGAINs in between, what has gone out
      followed by what is held is the encoded message; and when the message is reported as sent
      exactly the message has gone out.  It fails exactly if it does not fit or the socket fails for
      good: a socket that would block is waited for. */
  method SendMessage(sock: Socket, vectors: array<Iov>, cnt: int, events: nat) returns (sent: bool, failed: bool, ghost rest: seq<byte>)
    requires vectors.Length == ENCODE_IOV_MAX
    modifies sock, vectors
    ensures cnt < 0 || cnt > ENCODE_IOV_MAX ==> failed && !sent && sock.wire == old(sock.wire)
    ensures 0 <= cnt <= ENCODE_IOV_MAX ==>
      Conserved(old(sock.wire), old(Flat(vectors[..cnt])), sock.wire, rest)
    ensures sent ==> !failed && 0 <= cnt <= ENCODE_IOV_MAX && sock.wire == old(sock.wire) + old(Flat(vectors[..cnt]))
    ensures failed <==> !(0 <= cnt <= ENCODE_IOV_MAX) || sock.fatals > old(sock.fatals)
    ensures !sent && !failed ==> sock.agains > old(sock.agains)
  {
    hide Flat, Conserved;
    sent, failed, rest := false, false, [];
    if cnt < 0 || cnt > ENCODE_IOV_MAX {
      failed := true;
      return;
    }
    ghost var wire0, left0 := sock.wire, Flat(vectors[..cnt]);
    var ret := SendSync(sock, vectors, cnt);
    if ret < 0 {
      failed := true;
      rest :| Conserved(wire0, left0, sock.wire, rest);
      return;
    }
    rest := Flat(vectors[cnt - ret..cnt]);
    if ret == 0 {
      FlatEmpty();
      assert vectors[cnt - ret..cnt] == [];
      NothingLeft(wire0, left0, sock.wire);
      sent := true;
      return;
    }
    var node := new WriteNode(vectors, cnt - ret, ret);
    var k := 0;
    while k < events && !sent && !failed
      invariant node.Valid() && fresh(node) && fresh(node.iov) && rest == node.Left()
      invariant Conserved(wire0, left0, sock.wire, rest)
      invariant !(sent && failed) && (sent ==> sock.wire == wire0 + left0)
      invariant sock.fatals == old(sock.fatals) + One(failed) && sock.agains > old(sock.agains)
      decreases events - k
    {
      ghost var wire := sock.wire;
      var status := node.HandleWrite(sock, 0);
      ConservedThen(wire0, left0, wire, rest, sock.wire, node.Left());
      rest := node.Left();
      sent, failed := status == Finished, status == Failed;
      if sent { NothingLeft(wire0, left0, sock.wire); }
      k := k + 1;
    }
  }
}
