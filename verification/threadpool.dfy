/** How the threads of a pool end (src/kernel/thrdpool.cc): every leaving thread puts its id into
    pool->tid and joins the one it finds there; thrdpool_destroy waits for the count to reach zero
    and joins the last one.  One action is one critical section, one pthread_join that returns, or
    the end of a thread. */
module ThreadPool {
  import opened Common

  type Tid = nat

  datatype Destroyer =
    | NotYet
    | Waiting              // stop is set; waits on `terminate`
    | Joining(last: Option<Tid>)  // has seen nthreads == 0 and read pool->tid
    | Finished

  datatype State = State(
    nthreads: int,
    tid: Option<Tid>,           // pool->tid; none is __zero_tid
    stop: bool,
    running: set<Tid>,          // pool threads before their exit section
    left: seq<Tid>,             // threads past their exit section, in that order
    previous: map<Tid, Option<Tid>>,  // what each of them found in pool->tid
    free: set<Tid>,             // those that have nothing to join, or have joined it
    exited: set<Tid>,
    joined: multiset<Tid>,      // returned calls of pthread_join
    inside: Option<Tid>,        // the destroyer, if it is a thread of the pool; detached
    destroyer: Destroyer)

  /** The pool after thrdpool_create, the threads not started yet. */
  ghost function Fresh(count: int): State {
    State(count, None, false, {}, [], map[], {}, {}, multiset{}, None, NotYet)
  }

  datatype Action =
    | Create(thread: Tid)
    | Leave(thread: Tid, asked: bool)  // after `stop` has been seen, or asked to by thrdpool_exit or _decrease
    | Join(thread: Tid)
    | Exit(thread: Tid)
    | DestroyOutside
    | DestroyInside(thread: Tid)
    | Pass
    | JoinLast

  ghost predicate Known(s: State, t: Tid) {
    t in s.running || t in s.left || s.inside == Some(t)
  }

  ghost predicate Enabled(s: State, a: Action) {
    match a
    case Create(t) => !Known(s, t) && (s.destroyer.NotYet? || s.destroyer.Waiting?)
    case Leave(t, asked) => t in s.running && (asked || s.stop)
    case Join(t) => t in s.left && t !in s.free && t in s.previous && s.previous[t].Some? && s.previous[t].value in s.exited
    case Exit(t) => t in s.free && t !in s.exited
    case DestroyOutside => s.destroyer.NotYet?
    case DestroyInside(t) => s.destroyer.NotYet? && t in s.running
    case Pass => s.destroyer.Waiting? && s.nthreads <= 0
    case JoinLast => s.destroyer.Joining? && (s.destroyer.last.Some? ==> s.destroyer.last.value in s.exited)
  }

  ghost function Apply(s: State, a: Action): State
    requires Enabled(s, a)
  {
    match a
    case Create(t) => s.(nthreads := s.nthreads + 1, running := s.running + {t})
    case Leave(t, _) =>
      s.(previous := s.previous[t := s.tid], tid := Some(t), nthreads := s.nthreads - 1, running := s.running - {t},
         left := s.left + [t], free := if s.tid.None? then s.free + {t} else s.free)
    case Join(t) => s.(joined := s.joined + multiset{s.previous[t].value}, free := s.free + {t})
    case Exit(t) => s.(exited := s.exited + {t})
    case DestroyOutside => s.(stop := true, destroyer := Waiting)
    case DestroyInside(t) =>
      s.(stop := true, destroyer := Waiting, inside := Some(t), running := s.running - {t}, nthreads := s.nthreads - 1)
    case Pass => s.(destroyer := Joining(s.tid))
    case JoinLast =>
      s.(destroyer := Finished,
         joined := if s.destroyer.last.Some? then s.joined + multiset{s.destroyer.last.value} else s.joined)
  }

  ghost predicate Runs(s: State, run: seq<Action>, t: State)
    decreases |run|
  {
    if run == [] then s == t
    else Enabled(s, run[0]) && Runs(Apply(s, run[0]), run[1..], t)
  }

  // ---------- the invariant ----------

  ghost function LastOf(left: seq<Tid>): Option<Tid> {
    if left == [] then None else Some(left[|left| - 1])
  }

  ghost function Before(left: seq<Tid>, i: nat): Option<Tid>
    requires i < |left|
  {
    if i == 0 then None else Some(left[i - 1])
  }

  /** Each thread that has left joins the one that left just before it ... */
  ghost predicate Linked(left: seq<Tid>, previous: map<Tid, Option<Tid>>) {
    NoDup(left) && forall i :: 0 <= i < |left| ==> left[i] in previous && previous[left[i]] == Before(left, i)
  }

  /** ... and gets past that join only after that one has ended. */
  ghost predicate Followed(left: seq<Tid>, free: set<Tid>, exited: set<Tid>, i: nat)
    requires i < |left|
  {
    left[i] in free ==> Before(left, i).None? || Before(left, i).value in exited
  }

  ghost predicate Chained(left: seq<Tid>, free: set<Tid>, exited: set<Tid>) {
    && (|left| > 0 ==> left[0] in free)
    && (forall t :: t in free ==> t in left)
    && exited <= free
    && (forall i :: 0 <= i < |left| ==> Followed(left, free, exited, i))
  }

  /** Whether the join of the i-th thread to leave has returned: its successor has got past it,
      or the destroyer has. */
  ghost predicate Reaped(left: seq<Tid>, free: set<Tid>, finished: bool, i: nat)
    requires i < |left|
  {
    if i + 1 < |left| then left[i + 1] in free else finished
  }

  ghost predicate JoinsCounted(left: seq<Tid>, free: set<Tid>, finished: bool, joined: multiset<Tid>) {
    && (forall i :: 0 <= i < |left| ==> joined[left[i]] == One(Reaped(left, free, finished, i)))
    && (forall t :: t in joined ==> t in left)
  }

  ghost predicate Counted(s: State) {
    && s.tid == LastOf(s.left)
    && s.nthreads == |s.running|
    && (s.stop <==> !s.destroyer.NotYet?)
    && (forall t :: t in s.running ==> t !in s.left && s.inside != Some(t))
    && (s.inside.Some? ==> s.inside.value !in s.left)
    && (s.destroyer.Joining? || s.destroyer.Finished? ==> s.running == {})
    && (s.destroyer.Joining? ==> s.destroyer.last == LastOf(s.left))
    && (s.destroyer.Finished? ==> forall t :: t in s.left ==> t in s.exited)
  }

  ghost predicate Inv(s: State) {
    Linked(s.left, s.previous) && Chained(s.left, s.free, s.exited)
    && JoinsCounted(s.left, s.free, s.destroyer.Finished?, s.joined) && Counted(s)
  }

  // ---------- each step keeps the invariant ----------

  lemma LinkedMore(left: seq<Tid>, previous: map<Tid, Option<Tid>>, t: Tid)
    requires Linked(left, previous) && t !in left
    ensures Linked(left + [t], previous[t := LastOf(left)])
  {
    hide NoDup;
    NoDupPlus(left, t);
    var more := left + [t];
    forall i | 0 <= i < |more|
      ensures more[i] in previous[t := LastOf(left)] && previous[t := LastOf(left)][more[i]] == Before(more, i)
    {
      if i < |left| {
        assert more[i] == left[i] && Before(more, i) == Before(left, i);
      } else {
        assert more[i] == t && Before(more, i) == LastOf(left);
      }
    }
  }

  lemma ChainedMore(left: seq<Tid>, free: set<Tid>, exited: set<Tid>, t: Tid)
    requires Chained(left, free, exited) && t !in left
    ensures Chained(left + [t], if left == [] then free + {t} else free, exited)
  {
    var more := left + [t];
    var free' := if left == [] then free + {t} else free;
    assert forall u :: u in left ==> u in more;
    forall i | 0 <= i < |more| ensures Followed(more, free', exited, i) {
      if i < |left| {
        assert more[i] == left[i] && Before(more, i) == Before(left, i);
        assert Followed(left, free, exited, i);
      } else {
        assert more[i] == t;
      }
    }
  }

  lemma JoinsMore(left: seq<Tid>, free: set<Tid>, joined: multiset<Tid>, t: Tid)
    requires JoinsCounted(left, free, false, joined) && t !in left && forall u :: u in free ==> u in left
    ensures JoinsCounted(left + [t], if left == [] then free + {t} else free, false, joined)
  {
    var more := left + [t];
    var free' := if left == [] then free + {t} else free;
    assert forall u :: u in left ==> u in more;
    forall i | 0 <= i < |more| ensures joined[more[i]] == One(Reaped(more, free', false, i)) {
      if i < |left| {
        assert more[i] == left[i];
        assert joined[left[i]] == One(Reaped(left, free, false, i));
        if i + 1 < |left| { assert more[i + 1] == left[i + 1]; } else { assert more[i + 1] == t; }
      } else {
        assert more[i] == t;
      }
    }
  }

  lemma LeaveKeeps(s: State, t: Tid, asked: bool)
    requires Inv(s) && Enabled(s, Leave(t, asked))
    ensures Inv(Apply(s, Leave(t, asked)))
  {
    hide Linked, Chained, JoinsCounted;
    assert |s.running| == |s.running - {t}| + 1;
    LinkedMore(s.left, s.previous, t);
    ChainedMore(s.left, s.free, s.exited, t);
    FreeLeft(s);
    JoinsMore(s.left, s.free, s.joined, t);
  }

  lemma FreeLeft(s: State)
    requires Inv(s)
    ensures forall u :: u in s.free ==> u in s.left
  {
  }

  lemma JoinChained(left: seq<Tid>, previous: map<Tid, Option<Tid>>, free: set<Tid>, exited: set<Tid>, t: Tid)
    requires Linked(left, previous) && Chained(left, free, exited) && t in left
    requires t in previous && previous[t].Some? && previous[t].value in exited
    ensures Chained(left, free + {t}, exited)
  {
    forall i | 0 <= i < |left| ensures Followed(left, free + {t}, exited, i) {
      assert Followed(left, free, exited, i);
    }
  }

  lemma LinkedDiffer(left: seq<Tid>, previous: map<Tid, Option<Tid>>)
    requires Linked(left, previous)
    ensures NoDup(left)
  {
  }

  /** The join of left[k - 1] by left[k], as the thread at place i sees it. */
  lemma JoinCountedAt(left: seq<Tid>, free: set<Tid>, fin: bool, joined: multiset<Tid>, k: nat, i: nat)
    requires NoDup(left) && 0 < k < |left| && i < |left| && left[k] !in free
    requires joined[left[i]] == One(Reaped(left, free, fin, i))
    ensures (joined + multiset{left[k - 1]})[left[i]] == One(Reaped(left, free + {left[k]}, fin, i))
  {
    hide NoDup;
    if i == k - 1 {
      assert i + 1 == k;
    } else {
      Differ(left, i, k - 1);
      if i + 1 < |left| { Differ(left, i + 1, k); }
    }
  }

  lemma CountedAt(left: seq<Tid>, free: set<Tid>, fin: bool, joined: multiset<Tid>, i: nat)
    requires JoinsCounted(left, free, fin, joined) && i < |left|
    ensures joined[left[i]] == One(Reaped(left, free, fin, i))
  {
  }

  lemma JoinedLeft(left: seq<Tid>, free: set<Tid>, fin: bool, joined: multiset<Tid>, k: nat)
    requires JoinsCounted(left, free, fin, joined) && k < |left|
    ensures forall t :: t in joined + multiset{left[k]} ==> t in left
  {
  }

  lemma JoinCounted(left: seq<Tid>, free: set<Tid>, fin: bool, joined: multiset<Tid>, k: nat)
    requires NoDup(left) && JoinsCounted(left, free, fin, joined) && 0 < k < |left| && left[k] !in free
    ensures JoinsCounted(left, free + {left[k]}, fin, joined + multiset{left[k - 1]})
  {
    hide NoDup, Reaped;
    var joined', free' := joined + multiset{left[k - 1]}, free + {left[k]};
    JoinedLeft(left, free, fin, joined, k - 1);
    forall i | 0 <= i < |left| ensures joined'[left[i]] == One(Reaped(left, free', fin, i)) {
      CountedAt(left, free, fin, joined, i);
      JoinCountedAt(left, free, fin, joined, k, i);
    }
  }

  lemma Place(left: seq<Tid>, t: Tid) returns (k: nat)
    requires t in left
    ensures k < |left| && left[k] == t
  {
    k :| 0 <= k < |left| && left[k] == t;
  }

  lemma LinkAt(left: seq<Tid>, previous: map<Tid, Option<Tid>>, k: nat)
    requires Linked(left, previous) && k < |left|
    ensures NoDup(left) && left[k] in previous && previous[left[k]] == Before(left, k)
  {
  }

  lemma JoinKeeps(s: State, t: Tid)
    requires Inv(s) && Enabled(s, Join(t))
    ensures Inv(Apply(s, Join(t)))
  {
    hide Chained, JoinsCounted, Linked, NoDup;
    var k := Place(s.left, t);
    LinkAt(s.left, s.previous, k);
    JoinChained(s.left, s.previous, s.free, s.exited, t);
    JoinCounted(s.left, s.free, s.destroyer.Finished?, s.joined, k);
  }

  lemma {:induction false} ExitedBefore(s: State, i: nat, j: nat)
    requires Chained(s.left, s.free, s.exited) && i <= j < |s.left| && s.left[j] in s.exited
    ensures s.left[i] in s.exited
    decreases j - i
  {
    if i < j {
      assert Followed(s.left, s.free, s.exited, j);
      ExitedBefore(s, i, j - 1);
    }
  }

  lemma LastCountedAt(left: seq<Tid>, free: set<Tid>, joined: multiset<Tid>, i: nat)
    requires NoDup(left) && i < |left| && joined[left[i]] == One(Reaped(left, free, false, i))
    ensures (joined + multiset{left[|left| - 1]})[left[i]] == One(Reaped(left, free, true, i))
  {
    hide NoDup;
    if i < |left| - 1 { Differ(left, i, |left| - 1); }
  }

  lemma LastCounted(left: seq<Tid>, free: set<Tid>, joined: multiset<Tid>)
    requires JoinsCounted(left, free, false, joined) && NoDup(left)
    ensures JoinsCounted(left, free, true, if left == [] then joined else joined + multiset{left[|left| - 1]})
  {
    hide NoDup, Reaped;
    if left != [] {
      JoinedLeft(left, free, false, joined, |left| - 1);
      forall i | 0 <= i < |left|
        ensures (joined + multiset{left[|left| - 1]})[left[i]] == One(Reaped(left, free, true, i))
      {
        CountedAt(left, free, false, joined, i);
        LastCountedAt(left, free, joined, i);
      }
    }
  }

  lemma JoinLastKeeps(s: State)
    requires Inv(s) && Enabled(s, JoinLast)
    ensures Inv(Apply(s, JoinLast))
  {
    hide Chained, JoinsCounted, Linked, NoDup;
    LinkedDiffer(s.left, s.previous);
    LastCounted(s.left, s.free, s.joined);
    forall t | t in s.left ensures t in s.exited {
      var i := Place(s.left, t);
      ExitedBefore(s, i, |s.left| - 1);
    }
  }

  lemma ExitKeeps(s: State, t: Tid)
    requires Inv(s) && Enabled(s, Exit(t))
    ensures Inv(Apply(s, Exit(t)))
  {
    hide JoinsCounted, Linked;
    forall i | 0 <= i < |s.left| ensures Followed(s.left, s.free, s.exited + {t}, i) {
      assert Followed(s.left, s.free, s.exited, i);
    }
  }

  lemma OtherKeeps(s: State, a: Action)
    requires Inv(s) && Enabled(s, a) && !a.Leave? && !a.Join? && !a.JoinLast? && !a.Exit?
    ensures Inv(Apply(s, a))
  {
    hide Chained, JoinsCounted, Linked;
    if a.DestroyInside? { assert |s.running| == |s.running - {a.thread}| + 1; }
  }

  lemma StepKeeps(s: State, a: Action)
    requires Inv(s) && Enabled(s, a)
    ensures Inv(Apply(s, a))
  {
    hide Inv, Apply;
    match a
    case Leave(t, asked) => LeaveKeeps(s, t, asked);
    case Join(t) => JoinKeeps(s, t);
    case JoinLast => JoinLastKeeps(s);
    case Exit(t) => ExitKeeps(s, t);
    case _ => OtherKeeps(s, a);
  }

  lemma {:induction false} RunKeeps(s: State, run: seq<Action>, t: State)
    requires Inv(s) && Runs(s, run, t)
    ensures Inv(t)
    decreases |run|
  {
    hide Inv, Enabled, Apply;
    if run != [] {
      StepKeeps(s, run[0]);
      RunKeeps(Apply(s, run[0]), run[1..], t);
    }
  }

  // ---------- what holds of every run ----------

  /** No thread is joined twice, none is joined that has not left, and the destroyer is not
      joined at all. */
  lemma JoinedAtMostOnce(run: seq<Action>, s: State, t: Tid)
    requires Runs(Fresh(0), run, s)
    ensures s.joined[t] <= 1 && (t in s.joined ==> t in s.left && s.inside != Some(t))
  {
    hide Runs, Apply;
    RunKeeps(Fresh(0), run, s);
    if t in s.joined {
      var i :| 0 <= i < |s.left| && s.left[i] == t;
      assert s.joined[s.left[i]] == One(Reaped(s.left, s.free, s.destroyer.Finished?, i));
    }
  }

  /** When thrdpool_destroy returns, every thread of the pool has ended and has been joined
      exactly once; from outside the pool this means no pool thread outlives it, and from inside
      only the detached caller does. */
  lemma DestroyLeavesNobody(run: seq<Action>, s: State, t: Tid)
    requires Runs(Fresh(0), run, s) && s.destroyer.Finished?
    ensures s.running == {}
    ensures t in s.left ==> t in s.exited && s.joined[t] == 1
    ensures Known(s, t) ==> t in s.left || s.inside == Some(t)
  {
    hide Runs, Apply;
    RunKeeps(Fresh(0), run, s);
    if t in s.left {
      var i :| 0 <= i < |s.left| && s.left[i] == t;
      assert s.joined[s.left[i]] == One(Reaped(s.left, s.free, true, i));
      assert i + 1 < |s.left| ==> s.left[i + 1] in s.left && s.left[i + 1] in s.exited;
    }
  }

  /** No thread leaves a pool that nobody destroys unless it was asked to. */
  lemma {:induction false} NobodyLeaves(s: State, run: seq<Action>, t: State)
    requires Inv(s) && s.left == [] && Runs(s, run, t) && t.destroyer.NotYet?
    requires forall i :: 0 <= i < |run| && run[i].Leave? ==> !run[i].asked
    ensures t.left == [] && t.joined == s.joined
    decreases |run|
  {
    hide Linked, Chained, JoinsCounted, NoDup;
    if run != [] {
      StepKeeps(s, run[0]);
      DestroyStays(Apply(s, run[0]), run[1..], t);
      FreeLeft(s);
      assert forall i :: 0 <= i < |run[1..]| ==> run[1..][i] == run[i + 1];
      NobodyLeaves(Apply(s, run[0]), run[1..], t);
    }
  }

  lemma {:induction false} DestroyStays(s: State, run: seq<Action>, t: State)
    requires Runs(s, run, t)
    ensures !s.destroyer.NotYet? ==> !t.destroyer.NotYet?
    decreases |run|
  {
    if run != [] { DestroyStays(Apply(s, run[0]), run[1..], t); }
  }

  /** The steps that need nobody's decision: threads see `stop` and leave, joins return. */
  ghost predicate Winding(a: Action) {
    (a.Leave? && !a.asked) || a.Join? || a.Exit? || a.Pass? || a.JoinLast?
  }

  lemma FirstFree(left: seq<Tid>, free: set<Tid>, exited: set<Tid>)
    requires Chained(left, free, exited) && left != []
    ensures left[0] in free
  {
  }

  lemma {:induction false} FirstAlive(s: State, i: nat) returns (a: Action)
    requires Inv(s) && i < |s.left| && s.left[i] !in s.exited
    ensures (a.Exit? || a.Join?) && Enabled(s, a)
    decreases i
  {
    hide Linked, Chained, JoinsCounted, Counted, NoDup;
    FirstFree(s.left, s.free, s.exited);
    LinkAt(s.left, s.previous, i);
    var t := s.left[i];
    if t in s.free {
      a := Exit(t);
    } else if s.left[i - 1] in s.exited {
      a := Join(t);
    } else {
      a := FirstAlive(s, i - 1);
    }
  }

  lemma LastIs(s: State)
    requires Inv(s)
    ensures s.running == {} ==> s.nthreads <= 0
    ensures !s.destroyer.NotYet? ==> s.stop
    ensures s.destroyer.Joining? && s.destroyer.last.Some? ==> s.left != [] && s.destroyer.last.value == s.left[|s.left| - 1]
  {
    hide Linked, Chained, JoinsCounted, NoDup;
  }

  /** The joins cannot wait for each other in a circle: as long as a destroy has not returned,
      some thread of the pool, or the destroyer, can go on. */
  lemma NeverStuck(s: State) returns (a: Action)
    requires Inv(s) && (s.destroyer.Waiting? || s.destroyer.Joining?)
    ensures Winding(a) && Enabled(s, a)
  {
    hide Inv, NoDup;
    LastIs(s);
    if s.running != {} {
      var t :| t in s.running;
      a := Leave(t, false);
    } else if s.destroyer.Waiting? {
      a := Pass;
    } else if s.destroyer.last.Some? && s.destroyer.last.value !in s.exited {
      a := FirstAlive(s, |s.left| - 1);
    } else {
      a := JoinLast;
    }
  }

  ghost function DestroyerRank(d: Destroyer): nat {
    match d
    case Finished => 0
    case Joining(_) => 1
    case Waiting => 2
    case NotYet => 3
  }

  ghost function Rank(s: State): int {
    3 * |s.running| + 2 * |s.left| - |s.free| - |s.exited| + DestroyerRank(s.destroyer)
  }

  /** Winding down takes finitely many steps: each one lowers a count that starts at three for
      each running thread and never falls below zero. */
  lemma WindingDescends(s: State, a: Action)
    requires Inv(s) && Enabled(s, a) && Winding(a)
    ensures Rank(Apply(s, a)) < Rank(s)
  {
    hide Chained, JoinsCounted, Linked;
    match a
    case Leave(t, _) =>
      assert |s.running| == |s.running - {t}| + 1;
      if t in s.free { assert s.free + {t} == s.free; } else { assert |s.free + {t}| == |s.free| + 1; }
    case Join(t) => assert |s.free + {t}| == |s.free| + 1;
    case Exit(t) => assert |s.exited + {t}| == |s.exited| + 1;
    case _ =>
  }

  lemma {:induction false} Within(a: set<Tid>, q: seq<Tid>)
    requires forall t :: t in a ==> t in q
    ensures |a| <= |q|
    decreases |q|
  {
    if q == [] {
      assert a == {};
    } else {
      var n := |q| - 1;
      assert q == q[..n] + [q[n]];
      Within(a - {q[n]}, q[..n]);
    }
  }

  lemma RankNotNegative(s: State)
    requires Inv(s)
    ensures Rank(s) >= 0
  {
    Within(s.free, s.left);
    Within(s.exited, s.left);
  }

  lemma {:induction false} WindsDown(s: State) returns (run: seq<Action>, t: State)
    requires Inv(s) && !s.destroyer.NotYet?
    ensures Runs(s, run, t) && t.destroyer.Finished?
    decreases Rank(s)
  {
    hide Inv, Apply, Enabled, Rank, Winding;
    if s.destroyer.Finished? {
      run, t := [], s;
    } else {
      var a := NeverStuck(s);
      StepKeeps(s, a);
      RankNotNegative(s);
      RankNotNegative(Apply(s, a));
      WindingDescends(s, a);
      StillDestroying(s, a);
      run, t := WindsDown(Apply(s, a));
      assert ([a] + run)[1..] == run;
      run := [a] + run;
    }
  }

  lemma StillDestroying(s: State, a: Action)
    requires Enabled(s, a) && !s.destroyer.NotYet?
    ensures !Apply(s, a).destroyer.NotYet?
  {
  }

  /** From every reachable state in which a destroy has begun, it can return. */
  lemma DestroyCanReturn(pre: seq<Action>, s: State) returns (run: seq<Action>, t: State)
    requires Runs(Fresh(0), pre, s) && !s.destroyer.NotYet?
    ensures Runs(s, run, t) && t.destroyer.Finished?
  {
    hide Runs, Apply;
    RunKeeps(Fresh(0), pre, s);
    run, t := WindsDown(s);
  }

  // ---------- thrdpool_create as written ----------

  /** thrdpool_create stores `nthreads` in the pool before the loop that creates threads while
      pool->nthreads < nthreads: the loop does nothing and the count is too high. */
  ghost predicate TooHigh(s: State, count: nat) {
    s.nthreads == |s.running| + count && (s.destroyer.NotYet? || s.destroyer.Waiting?)
  }

  lemma StaysTooHigh(s: State, a: Action, count: nat)
    requires count > 0 && TooHigh(s, count) && Enabled(s, a)
    ensures TooHigh(Apply(s, a), count)
  {
    if a.Leave? || a.DestroyInside? { assert |s.running| == |s.running - {a.thread}| + 1; }
  }

  lemma {:induction false} Surplus(s: State, run: seq<Action>, t: State, count: nat)
    requires count > 0 && TooHigh(s, count) && Runs(s, run, t)
    ensures TooHigh(t, count)
    decreases |run|
  {
    hide Apply, Enabled;
    if run != [] {
      StaysTooHigh(s, run[0], count);
      Surplus(Apply(s, run[0]), run[1..], t, count);
    }
  }

  /** As written, with any number of threads but none, thrdpool_destroy never returns ... */
  lemma DestroyNeverReturns(count: nat, run: seq<Action>, s: State)
    requires count > 0 && Runs(Fresh(count), run, s)
    ensures !s.destroyer.Finished?
  {
    Surplus(Fresh(count), run, s, count);
  }

  /** ... so from any state of a pool whose destroy has begun, however it was used before, the
      destroy can return if and only if the pool was created for no thread. */
  lemma CreateExactly(count: nat, pre: seq<Action>, s: State)
    requires Runs(Fresh(count), pre, s) && !s.destroyer.NotYet?
    ensures (exists run, t :: Runs(s, run, t) && t.destroyer.Finished?) <==> count == 0
  {
    hide Runs, Enabled, Apply;
    if count == 0 {
      var run, t := DestroyCanReturn(pre, s);
    } else {
      Surplus(Fresh(count), pre, s, count);
      forall run, t | Runs(s, run, t) ensures !t.destroyer.Finished? { Surplus(s, run, t, count); }
    }
  }
}
