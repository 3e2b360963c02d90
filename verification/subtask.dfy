/** Series-parallel tasks (src/kernel/subtask.cc and subtask.h): dispatch, subtask_done and the
    counter nleft, for any nesting and any interleaving of the threads that run them. */
module SubTask {
  import opened Common

  type Id = nat

  /** Where a task stands: in which chain of which parallel task, and at which place there. */
  datatype Pos = Pos(par: Option<Id>, chain: nat, at: nat)

  /** The tasks of one job.  `kids` gives the parallel tasks and their chains: the first task
      of a chain is what `subtasks` holds, every other one is what done() of its predecessor
      returns.  Tasks that are not in `kids` do their own work.  `top` is the chain that has no
      parent.  `height` only says that the nesting is finite. */
  datatype Graph = Graph(top: seq<Id>, kids: map<Id, seq<seq<Id>>>, pos: map<Id, Pos>, height: map<Id, nat>)

  ghost predicate ChainPlaced(g: Graph, chain: seq<Id>, par: Option<Id>, i: nat) {
    chain != [] && forall j :: 0 <= j < |chain| ==> chain[j] in g.pos && g.pos[chain[j]] == Pos(par, i, j)
  }

  ghost predicate HasChain(g: Graph, par: Option<Id>, i: nat) {
    if par.None? then i == 0 else par.value in g.kids && i < |g.kids[par.value]|
  }

  ghost function Chain(g: Graph, par: Option<Id>, i: nat): seq<Id>
    requires HasChain(g, par, i)
  {
    if par.None? then g.top else g.kids[par.value][i]
  }

  /** Every task stands in exactly one place. */
  ghost predicate WellFormed(g: Graph) {
    && (forall par, i :: HasChain(g, par, i) ==> ChainPlaced(g, Chain(g, par, i), par, i))
    && (forall t :: t in g.pos ==>
          HasChain(g, g.pos[t].par, g.pos[t].chain)
          && g.pos[t].at < |Chain(g, g.pos[t].par, g.pos[t].chain)|
          && Chain(g, g.pos[t].par, g.pos[t].chain)[g.pos[t].at] == t)
    && (forall p :: p in g.kids ==> p in g.pos)
    && g.height.Keys == g.pos.Keys
    && (forall t :: t in g.pos && g.pos[t].par.Some? ==> g.height[t] < g.height[g.pos[t].par.value])
  }

  /** A job that satisfies WellFormed: a parallel task with the series 1, 2. */
  lemma SmallJob() returns (g: Graph)
    ensures WellFormed(g) && g.top == [0] && g.kids == map[0 := [[1, 2]]]
  {
    var pos := map[0 := Pos(None, 0, 0), 1 := Pos(Some(0), 0, 0), 2 := Pos(Some(0), 0, 1)];
    g := Graph([0], map[0 := [[1, 2]]], pos, map[0 := 1, 1 := 0, 2 := 0]);
    assert ChainPlaced(g, [0], None, 0);
    assert ChainPlaced(g, [1, 2], Some(0), 0);
    forall par, i | HasChain(g, par, i) ensures ChainPlaced(g, Chain(g, par, i), par, i) {
      assert i == 0 && (par.None? || par.value == 0);
    }
  }

  ghost function MyChain(g: Graph, t: Id): seq<Id>
    requires WellFormed(g) && t in g.pos
  {
    Chain(g, g.pos[t].par, g.pos[t].chain)
  }

  /** What done() returns. */
  ghost function Next(g: Graph, t: Id): Option<Id>
    requires WellFormed(g) && t in g.pos
  {
    var c := MyChain(g, t);
    if g.pos[t].at + 1 < |c| then Some(c[g.pos[t].at + 1]) else None
  }

  // ---------- the machine ----------

  datatype State = State(
    parent: map<Id, Option<Id>>,   // SubTask::parent
    nleft: map<Id, int>,           // ParallelTask::nleft
    index: map<Id, nat>,           // the loop variable of dispatch
    started: set<Id>,              // dispatch() has been entered
    ending: set<Id>,               // a thread is in subtask_done() with cur at this task, or was
    done: set<Id>,                 // done() has returned
    handing: set<Id>,              // threads between done() of a task and dispatch() of the next
    leaving: set<(Id, nat)>,       // threads past the end of a chain, about to count down
    ended: set<(Id, nat)>,         // chains that have been counted down
    dispatched: multiset<Id>,      // calls of dispatch()
    finished: multiset<Id>)        // calls of done()

  ghost function Dispatch(g: Graph, s: State, t: Id): State {
    var d := s.(started := s.started + {t}, dispatched := s.dispatched + multiset{t});
    if t !in g.kids then d
    else d.(nleft := s.nleft[t := |g.kids[t]|], index := s.index[t := 0],
            ending := if g.kids[t] == [] then s.ending + {t} else s.ending)
  }

  ghost function Start(g: Graph): State
    requires WellFormed(g)
  {
    assert ChainPlaced(g, Chain(g, None, 0), None, 0);
    Dispatch(g, State(map[g.top[0] := None], map[], map[], {}, {}, {}, {}, {}, {}, multiset{}, multiset{}), g.top[0])
  }

  datatype Action =
    | Loop(par: Id)        // one round of the loop in ParallelTask::dispatch
    | Finish(task: Id)     // a task has done its work and calls subtask_done
    | Done(task: Id)       // subtask_done: `parent` is read, done() called
    | Hand(task: Id)       // subtask_done: the next task gets that parent and is dispatched
    | Count(par: Id, chain: nat)  // subtask_done: __sync_sub_and_fetch(&parent->nleft, 1)

  ghost predicate Enabled(g: Graph, s: State, a: Action) {
    match a
    case Loop(p) => p in s.started && p in g.kids && p in s.index && s.index[p] < |g.kids[p]|
    case Finish(t) => t in s.started && t in g.pos && t !in g.kids && t !in s.ending
    case Done(t) => t in s.ending && t in g.pos && t !in s.done && t in s.parent
    case Hand(t) => t in s.handing && t in g.pos && t in s.parent
    case Count(p, i) => (p, i) in s.leaving && p in s.nleft
  }

  ghost function Apply(g: Graph, s: State, a: Action): State
    requires WellFormed(g) && Enabled(g, s, a)
  {
    match a
    case Loop(p) =>
      assert HasChain(g, Some(p), s.index[p]);
      assert ChainPlaced(g, Chain(g, Some(p), s.index[p]), Some(p), s.index[p]);
      var c := g.kids[p][s.index[p]][0];
      Dispatch(g, s.(parent := s.parent[c := Some(p)], index := s.index[p := s.index[p] + 1]), c)
    case Finish(t) => s.(ending := s.ending + {t})
    case Done(t) =>
      var d := s.(done := s.done + {t}, finished := s.finished + multiset{t});
      var par := s.parent[t];
      if Next(g, t).Some? then d.(handing := s.handing + {t})
      else if par.Some? then d.(leaving := s.leaving + {(par.value, g.pos[t].chain)})
      else d
    case Hand(t) =>
      var next := Next(g, t);
      if next.None? then s
      else Dispatch(g, s.(parent := s.parent[next.value := s.parent[t]], handing := s.handing - {t}), next.value)
    case Count(p, i) =>
      s.(nleft := s.nleft[p := s.nleft[p] - 1], leaving := s.leaving - {(p, i)}, ended := s.ended + {(p, i)},
         ending := if s.nleft[p] == 1 then s.ending + {p} else s.ending)
  }

  ghost predicate Runs(g: Graph, s: State, run: seq<Action>, t: State)
    requires WellFormed(g)
    decreases |run|
  {
    if run == [] then s == t
    else Enabled(g, s, run[0]) && Runs(g, Apply(g, s, run[0]), run[1..], t)
  }

  // ---------- the invariant ----------

  ghost function EndedOf(ended: set<(Id, nat)>, p: Id, n: nat): set<nat> {
    set i: nat | i < n && (p, i) in ended
  }

  /** dispatch() has been called exactly for the started tasks, done() for the done ones. */
  ghost predicate Once(g: Graph, s: State) {
    && s.dispatched == multiset(s.started) && s.finished == multiset(s.done)
    && s.done <= s.ending <= s.started <= g.pos.Keys
  }

  /** A task has been started exactly when what comes before it has got that far. */
  ghost predicate InOrder(g: Graph, started: set<Id>, done: set<Id>, handing: set<Id>, index: map<Id, nat>)
    requires WellFormed(g)
  {
    && (forall t :: t in g.pos && g.pos[t].at == 0 && g.pos[t].par.None? ==> t in started)
    && (forall t :: t in g.pos && g.pos[t].at == 0 && g.pos[t].par.Some? ==>
          (t in started <==>
            var p := g.pos[t].par.value;
            p in started && p in index && g.pos[t].chain < index[p]))
    && (forall t :: t in g.pos && Next(g, t).Some? ==> (Next(g, t).value in started <==> t in done - handing))
    && (forall t :: t in handing ==> t in done && t in g.pos && Next(g, t).Some?)
  }

  /** The parent pointer of a started task is the parallel task it stands under, which has been
      started before. */
  ghost predicate Parents(g: Graph, started: set<Id>, parent: map<Id, Option<Id>>) {
    forall t :: t in started && t in g.pos ==>
      && t in parent && parent[t] == g.pos[t].par
      && (g.pos[t].par.Some? ==> g.pos[t].par.value in started)
  }

  /** A chain is being counted down, or has been, exactly when its last task is done. */
  ghost predicate Chains(g: Graph, started: set<Id>, done: set<Id>, leaving: set<(Id, nat)>, ended: set<(Id, nat)>)
    requires WellFormed(g)
  {
    && (forall c :: c in leaving + ended ==> c.0 in g.kids && c.0 in started && c.1 < |g.kids[c.0]|)
    && leaving !! ended
    && (forall t :: t in g.pos && g.pos[t].par.Some? && Next(g, t).None? ==>
          (t in done <==> (g.pos[t].par.value, g.pos[t].chain) in leaving + ended))
  }

  /** nleft is the number of chains that have not ended; at zero, and only then, the parallel
      task itself ends. */
  ghost predicate Counters(g: Graph, started: set<Id>, ending: set<Id>, nleft: map<Id, int>, index: map<Id, nat>,
                           ended: set<(Id, nat)>)
  {
    forall p :: p in g.kids && p in started ==>
      && p in nleft && p in index && index[p] <= |g.kids[p]|
      && nleft[p] == |g.kids[p]| - |EndedOf(ended, p, |g.kids[p]|)|
      && (p in ending <==> nleft[p] == 0)
  }

  ghost predicate Inv(g: Graph, s: State)
    requires WellFormed(g)
  {
    && Once(g, s) && InOrder(g, s.started, s.done, s.handing, s.index) && Parents(g, s.started, s.parent)
    && Chains(g, s.started, s.done, s.leaving, s.ended)
    && Counters(g, s.started, s.ending, s.nleft, s.index, s.ended)
  }

  // ---------- each step keeps the invariant ----------

  /** Facts about the place of a task that the proofs use again and again. */
  lemma NextPlace(g: Graph, t: Id)
    requires WellFormed(g) && t in g.pos
    ensures Next(g, t).Some? ==> (
      && Next(g, t).value in g.pos
      && g.pos[Next(g, t).value] == Pos(g.pos[t].par, g.pos[t].chain, g.pos[t].at + 1))
    ensures g.pos[t].par.Some? ==> g.pos[t].par.value in g.kids && g.pos[t].chain < |g.kids[g.pos[t].par.value]|
  {
    var c := MyChain(g, t);
    assert ChainPlaced(g, c, g.pos[t].par, g.pos[t].chain);
  }

  lemma HeadPlace(g: Graph, p: Id, i: nat)
    requires WellFormed(g) && p in g.kids && i < |g.kids[p]|
    ensures g.kids[p][i] != [] && g.kids[p][i][0] in g.pos && g.pos[g.kids[p][i][0]] == Pos(Some(p), i, 0)
  {
    assert HasChain(g, Some(p), i);
    assert ChainPlaced(g, Chain(g, Some(p), i), Some(p), i);
  }

  /** A place holds one task. */
  lemma OnePerPlace(g: Graph, t: Id, u: Id)
    requires WellFormed(g) && t in g.pos && u in g.pos && g.pos[t] == g.pos[u]
    ensures t == u
  {
  }

  lemma LastOnce(g: Graph, t: Id, u: Id)
    requires WellFormed(g) && t in g.pos && u in g.pos && Next(g, t).None? && Next(g, u).None?
    requires g.pos[t].par == g.pos[u].par && g.pos[t].chain == g.pos[u].chain
    ensures t == u
  {
  }

  lemma NextOnce(g: Graph, t: Id, u: Id)
    requires WellFormed(g) && t in g.pos && u in g.pos && Next(g, t).Some? && Next(g, t) == Next(g, u)
    ensures t == u
  {
    NextPlace(g, t);
    NextPlace(g, u);
    OnePerPlace(g, t, u);
  }

  lemma FinishKeeps(g: Graph, s: State, t: Id)
    requires WellFormed(g) && Inv(g, s) && Enabled(g, s, Finish(t))
    ensures Inv(g, Apply(g, s, Finish(t)))
  {
    hide WellFormed, Next, InOrder, Parents, Chains;
  }

  lemma CountChains(g: Graph, s: State, c: (Id, nat))
    requires WellFormed(g) && Chains(g, s.started, s.done, s.leaving, s.ended) && c in s.leaving
    ensures Chains(g, s.started, s.done, s.leaving - {c}, s.ended + {c})
  {
    hide WellFormed, Next;
    assert s.leaving - {c} + (s.ended + {c}) == s.leaving + s.ended;
  }

  lemma EndedMore(ended: set<(Id, nat)>, p: Id, i: nat, q: Id, n: nat)
    ensures EndedOf(ended + {(p, i)}, q, n) == EndedOf(ended, q, n) + if q == p && i < n then {i} else {}
  {
  }

  lemma CountOne(g: Graph, s: State, p: Id, i: nat, q: Id)
    requires Counters(g, s.started, s.ending, s.nleft, s.index, s.ended)
    requires p in g.kids && p in s.started && i < |g.kids[p]| && (p, i) !in s.ended && q in g.kids && q in s.started
    ensures q in s.nleft && q in s.index
    ensures |EndedOf(s.ended + {(p, i)}, q, |g.kids[q]|)| == |EndedOf(s.ended, q, |g.kids[q]|)| + if q == p then 1 else 0
  {
    hide EndedOf;
    EndedMore(s.ended, p, i, q, |g.kids[q]|);
    EndedIn(s.ended, p, |g.kids[p]|, i);
  }

  lemma LeavingFacts(g: Graph, s: State, p: Id, i: nat)
    requires WellFormed(g) && Chains(g, s.started, s.done, s.leaving, s.ended) && (p, i) in s.leaving
    ensures p in g.kids && p in s.started && i < |g.kids[p]| && (p, i) !in s.ended
  {
    hide WellFormed, Next;
    assert (p, i) in s.leaving + s.ended;
  }

  lemma CountCounters(g: Graph, s: State, p: Id, i: nat)
    requires WellFormed(g) && Inv(g, s) && Enabled(g, s, Count(p, i))
    ensures var d := Apply(g, s, Count(p, i)); Counters(g, d.started, d.ending, d.nleft, d.index, d.ended)
    ensures p in s.started && s.nleft[p] > 0
  {
    hide WellFormed, Next, InOrder, Parents, Once, EndedOf, Chains;
    LeavingFacts(g, s, p, i);
    Unfinished(g, s, p, i);
    forall q | q in g.kids && q in s.started
      ensures |EndedOf(s.ended + {(p, i)}, q, |g.kids[q]|)| == |EndedOf(s.ended, q, |g.kids[q]|)| + if q == p then 1 else 0
    {
      CountOne(g, s, p, i, q);
    }
  }

  lemma EndedIn(ended: set<(Id, nat)>, p: Id, n: nat, i: nat)
    ensures i in EndedOf(ended, p, n) <==> i < n && (p, i) in ended
  {
  }

  lemma CountKeeps(g: Graph, s: State, p: Id, i: nat)
    requires WellFormed(g) && Inv(g, s) && Enabled(g, s, Count(p, i))
    ensures Inv(g, Apply(g, s, Count(p, i)))
  {
    hide WellFormed, Next, InOrder, Parents, Chains, Counters;
    CountChains(g, s, (p, i));
    CountCounters(g, s, p, i);
  }

  /** While some chain has not ended, nleft is positive. */
  lemma Unfinished(g: Graph, s: State, p: Id, i: nat)
    requires Counters(g, s.started, s.ending, s.nleft, s.index, s.ended)
    requires p in g.kids && p in s.started && i < |g.kids[p]| && (p, i) !in s.ended
    ensures s.nleft[p] > 0
  {
    var n := |g.kids[p]|;
    Fewer(EndedOf(s.ended, p, n), Upto(n) - {i});
  }

  ghost function Upto(n: nat): (r: set<nat>)
    ensures |r| == n && forall i: nat :: i in r <==> i < n
  {
    if n == 0 then {} else Upto(n - 1) + {n - 1}
  }

  lemma {:induction false} Fewer<T>(a: set<T>, b: set<T>)
    requires a <= b
    ensures |a| <= |b|
  {
    if a != {} {
      var x :| x in a;
      Fewer(a - {x}, b - {x});
    }
  }

  // ---- a task is dispatched ----

  /** The parts of the invariant once `t`, not started before, is dispatched. */
  lemma DispatchCounters(g: Graph, s: State, t: Id)
    requires WellFormed(g) && Counters(g, s.started, s.ending, s.nleft, s.index, s.ended)
    requires Chains(g, s.started, s.done, s.leaving, s.ended) && t !in s.started && t in g.pos && s.ending <= s.started
    ensures var d := Dispatch(g, s, t); Counters(g, d.started, d.ending, d.nleft, d.index, d.ended)
  {
    hide WellFormed, Next;
    assert forall c :: c in s.ended ==> c in s.leaving + s.ended;
    if t in g.kids {
      assert EndedOf(s.ended, t, |g.kids[t]|) == {};
    }
  }

  lemma DispatchParents(g: Graph, s: State, t: Id)
    requires t in g.pos && Parents(g, s.started, s.parent) && t !in s.started
    requires g.pos[t].par.Some? ==> g.pos[t].par.value in s.started
    ensures Parents(g, s.started + {t}, s.parent[t := g.pos[t].par])
  {
  }

  ghost function IndexAfter(g: Graph, index: map<Id, nat>, t: Id): map<Id, nat> {
    if t in g.kids then index[t := 0] else index
  }

  lemma HeadStarted(g: Graph, started: set<Id>, done: set<Id>, handing: set<Id>, index: map<Id, nat>, p: Id, c: Id)
    requires WellFormed(g) && InOrder(g, started, done, handing, index) && p in started && p in index
    requires c in g.pos && g.pos[c] == Pos(Some(p), index[p], 0)
    ensures c !in started && InOrder(g, started + {c}, done, handing, IndexAfter(g, index[p := index[p] + 1], c))
  {
    hide WellFormed, Next;
    forall t | t in g.pos ensures Next(g, t) != Some(c) && (g.pos[t].par.Some? ==> g.pos[t].par.value in g.kids) {
      NextPlace(g, t);
    }
    forall t | t in g.pos && g.pos[t] == g.pos[c] ensures t == c { OnePerPlace(g, t, c); }
  }

  lemma NextStarted(g: Graph, started: set<Id>, done: set<Id>, handing: set<Id>, index: map<Id, nat>, t: Id)
    requires WellFormed(g) && InOrder(g, started, done, handing, index) && t in g.pos && t in handing && done <= started
    requires Next(g, t).Some?
    ensures Next(g, t).value !in started
    ensures InOrder(g, started + {Next(g, t).value}, done, handing - {t}, IndexAfter(g, index, Next(g, t).value))
  {
    hide WellFormed, Next;
    var n := Next(g, t).value;
    NextPlace(g, t);
    forall u | u in g.pos ensures g.pos[u].par.Some? ==> g.pos[u].par.value in g.kids { NextPlace(g, u); }
    forall u | u in g.pos && Next(g, u) == Some(n) ensures u == t { NextOnce(g, t, u); }
  }

  lemma NowDone(g: Graph, started: set<Id>, done: set<Id>, handing: set<Id>, index: map<Id, nat>, t: Id)
    requires WellFormed(g) && InOrder(g, started, done, handing, index) && t in g.pos && t !in done
    ensures InOrder(g, started, done + {t}, if Next(g, t).Some? then handing + {t} else handing, index)
  {
    hide WellFormed, Next;
  }

  lemma InnerDoneChains(g: Graph, s: State, t: Id)
    requires WellFormed(g) && Chains(g, s.started, s.done, s.leaving, s.ended) && t in g.pos && Next(g, t).Some?
    ensures Chains(g, s.started, s.done + {t}, s.leaving, s.ended)
  {
    hide WellFormed, Next;
  }

  lemma LastDoneChains(g: Graph, s: State, t: Id)
    requires WellFormed(g) && Chains(g, s.started, s.done, s.leaving, s.ended) && Parents(g, s.started, s.parent)
    requires t in s.started && t in g.pos && t !in s.done && Next(g, t).None?
    ensures g.pos[t].par.Some? ==>
      Chains(g, s.started, s.done + {t}, s.leaving + {(g.pos[t].par.value, g.pos[t].chain)}, s.ended)
    ensures g.pos[t].par.None? ==> Chains(g, s.started, s.done + {t}, s.leaving, s.ended)
  {
    hide InOrder, Counters, WellFormed, Next;
    NextPlace(g, t);
    if g.pos[t].par.Some? {
      var c := (g.pos[t].par.value, g.pos[t].chain);
      assert c !in s.leaving + s.ended;
      assert s.leaving + {c} + s.ended == s.leaving + s.ended + {c};
      forall u | u in g.pos && g.pos[u].par.Some? && Next(g, u).None? && (g.pos[u].par.value, g.pos[u].chain) == c
        ensures u == t
      {
        LastOnce(g, t, u);
      }
    }
  }

  lemma MoreStartedChains(g: Graph, s: State, more: set<Id>)
    requires WellFormed(g) && Chains(g, s.started, s.done, s.leaving, s.ended)
    ensures Chains(g, s.started + more, s.done, s.leaving, s.ended)
  {
    hide WellFormed, Next;
  }

  lemma LoopCounters(g: Graph, s: State, p: Id)
    requires Counters(g, s.started, s.ending, s.nleft, s.index, s.ended) && Enabled(g, s, Loop(p))
    ensures Counters(g, s.started, s.ending, s.nleft, s.index[p := s.index[p] + 1], s.ended)
  {
    hide EndedOf;
  }

  lemma LoopKeeps(g: Graph, s: State, p: Id)
    requires WellFormed(g) && Inv(g, s) && Enabled(g, s, Loop(p))
    ensures Inv(g, Apply(g, s, Loop(p)))
  {
    hide WellFormed, InOrder, Parents, Chains, Next, Counters;
    HeadPlace(g, p, s.index[p]);
    var c := g.kids[p][s.index[p]][0];
    HeadStarted(g, s.started, s.done, s.handing, s.index, p, c);
    var m := s.(parent := s.parent[c := Some(p)], index := s.index[p := s.index[p] + 1]);
    DispatchParents(g, s, c);
    MoreStartedChains(g, s, {c});
    LoopCounters(g, s, p);
    DispatchCounters(g, m, c);
  }

  lemma InnerDoneKeeps(g: Graph, s: State, t: Id)
    requires WellFormed(g) && Inv(g, s) && Enabled(g, s, Done(t)) && Next(g, t).Some?
    ensures Inv(g, Apply(g, s, Done(t)))
  {
    hide WellFormed, InOrder, Chains, Counters, Parents, Next;
    NowDone(g, s.started, s.done, s.handing, s.index, t);
    InnerDoneChains(g, s, t);
  }

  lemma HandKeeps(g: Graph, s: State, t: Id)
    requires WellFormed(g) && Inv(g, s) && Enabled(g, s, Hand(t))
    ensures Inv(g, Apply(g, s, Hand(t)))
  {
    hide WellFormed, InOrder, Chains, Counters, Parents, Next;
    if Next(g, t).Some? {
      NextPlace(g, t);
      HandedDone(g, s, t);
      ParentOf(g, s, t);
      var n := Next(g, t).value;
      NextStarted(g, s.started, s.done, s.handing, s.index, t);
      DispatchParents(g, s, n);
      MoreStartedChains(g, s, {n});
      DispatchCounters(g, s, n);
    }
  }

  lemma HandedDone(g: Graph, s: State, t: Id)
    requires WellFormed(g) && Inv(g, s) && t in s.handing
    ensures t in s.done && t in s.started
  {
  }

  lemma ParentOf(g: Graph, s: State, t: Id)
    requires Parents(g, s.started, s.parent) && t in s.started && t in g.pos
    ensures t in s.parent && s.parent[t] == g.pos[t].par
    ensures g.pos[t].par.Some? ==> g.pos[t].par.value in s.started
  {
  }

  lemma LastDoneKeeps(g: Graph, s: State, t: Id)
    requires WellFormed(g) && Inv(g, s) && Enabled(g, s, Done(t)) && Next(g, t).None?
    ensures Inv(g, Apply(g, s, Done(t)))
  {
    hide WellFormed, InOrder, Chains, Counters, Parents, Next;
    ParentOf(g, s, t);
    NowDone(g, s.started, s.done, s.handing, s.index, t);
    LastDoneChains(g, s, t);
  }

  lemma StepKeeps(g: Graph, s: State, a: Action)
    requires WellFormed(g) && Inv(g, s) && Enabled(g, s, a)
    ensures Inv(g, Apply(g, s, a))
  {
    hide WellFormed, Inv, Apply, Next;
    match a
    case Loop(p) => LoopKeeps(g, s, p);
    case Finish(t) => FinishKeeps(g, s, t);
    case Done(t) => if Next(g, t).Some? { InnerDoneKeeps(g, s, t); } else { LastDoneKeeps(g, s, t); }
    case Hand(t) => HandKeeps(g, s, t);
    case Count(p, i) => CountKeeps(g, s, p, i);
  }

  lemma StartKeeps(g: Graph)
    requires WellFormed(g)
    ensures Inv(g, Start(g))
  {
    hide WellFormed, Next, InOrder, Chains, Counters;
    TopPlace(g);
    var t := g.top[0];
    var s := State(map[t := None], map[], map[], {}, {}, {}, {}, {}, {}, multiset{}, multiset{});
    EmptyParts(g, s);
    DispatchCounters(g, s, t);
    MoreStartedChains(g, s, {t});
    assert {} + {t} == {t};
    StartInOrder(g, t);
  }

  lemma EmptyParts(g: Graph, s: State)
    requires WellFormed(g) && s.started == {} && s.done == {} && s.leaving == {} && s.ended == {}
    ensures Counters(g, s.started, s.ending, s.nleft, s.index, s.ended)
    ensures Chains(g, s.started, s.done, s.leaving, s.ended)
  {
    hide WellFormed, Next;
  }

  lemma StartInOrder(g: Graph, t: Id)
    requires WellFormed(g) && t in g.pos && g.pos[t] == Pos(None, 0, 0)
    ensures InOrder(g, {t}, {}, {}, IndexAfter(g, map[], t))
  {
    hide WellFormed, Next;
    forall u | u in g.pos ensures Next(g, u) != Some(t) && (g.pos[u].par.Some? ==> g.pos[u].par.value in g.kids) {
      NextPlace(g, u);
    }
    forall u | u in g.pos && g.pos[u] == g.pos[t] ensures u == t { OnePerPlace(g, t, u); }
    forall u | u in g.pos && g.pos[u].par.None? ensures g.pos[u].chain == 0 { TopChain(g, u); }
  }

  lemma TopPlace(g: Graph)
    requires WellFormed(g)
    ensures g.top != [] && g.top[0] in g.pos && g.pos[g.top[0]] == Pos(None, 0, 0)
  {
    assert HasChain(g, None, 0);
    assert ChainPlaced(g, Chain(g, None, 0), None, 0);
  }

  lemma TopChain(g: Graph, t: Id)
    requires WellFormed(g) && t in g.pos && g.pos[t].par.None?
    ensures g.pos[t].chain == 0
  {
  }

  lemma {:induction false} RunKeeps(g: Graph, s: State, run: seq<Action>, t: State)
    requires WellFormed(g) && Inv(g, s) && Runs(g, s, run, t)
    ensures Inv(g, t)
    decreases |run|
  {
    hide WellFormed, Inv, Apply, Enabled;
    if run != [] {
      StepKeeps(g, s, run[0]);
      RunKeeps(g, Apply(g, s, run[0]), run[1..], t);
    }
  }

  // ---------- what holds of every run ----------

  /** No task is dispatched or done twice, and none is done before it is dispatched. */
  lemma OnceEach(g: Graph, run: seq<Action>, s: State, t: Id)
    requires WellFormed(g) && Runs(g, Start(g), run, s)
    ensures s.finished[t] <= s.dispatched[t] <= 1
  {
    hide WellFormed, Apply, Enabled, Runs;
    StartKeeps(g);
    RunKeeps(g, Start(g), run, s);
  }

  /** Within a series a task is dispatched only after done() of the one before it has returned; in
      between only the thread that hands over stands. */
  lemma SeriesOrder(g: Graph, run: seq<Action>, s: State, t: Id)
    requires WellFormed(g) && Runs(g, Start(g), run, s) && t in g.pos && Next(g, t).Some?
    ensures Next(g, t).value in s.dispatched ==> t in s.finished
    ensures t in s.finished ==> (Next(g, t).value in s.dispatched || t in s.handing)
    ensures t in s.handing ==> Next(g, t).value !in s.dispatched
  {
    hide WellFormed, Apply, Enabled, Runs, Next;
    StartKeeps(g);
    RunKeeps(g, Start(g), run, s);
  }

  lemma StepBack(g: Graph, s: State, p: Id, i: nat, j: nat)
    requires WellFormed(g) && Inv(g, s) && p in g.kids && i < |g.kids[p]| && j + 1 < |g.kids[p][i]|
    requires g.kids[p][i][j + 1] in s.done
    ensures g.kids[p][i][j] in s.done
  {
    hide WellFormed, Next, Parents, Chains, Counters;
    PlaceIn(g, p, i, j);
  }

  lemma {:induction false} BeforeIsDone(g: Graph, s: State, p: Id, i: nat, j: nat)
    requires WellFormed(g) && Inv(g, s) && p in g.kids && i < |g.kids[p]| && j < |g.kids[p][i]|
    requires g.kids[p][i][|g.kids[p][i]| - 1] in s.done
    ensures g.kids[p][i][j] in s.done
    decreases |g.kids[p][i]| - j
  {
    hide WellFormed, Inv;
    if j + 1 < |g.kids[p][i]| {
      BeforeIsDone(g, s, p, i, j + 1);
      StepBack(g, s, p, i, j);
    }
  }

  lemma PlaceIn(g: Graph, p: Id, i: nat, j: nat)
    requires WellFormed(g) && p in g.kids && i < |g.kids[p]| && j < |g.kids[p][i]|
    ensures var c := g.kids[p][i];
      c[j] in g.pos && g.pos[c[j]] == Pos(Some(p), i, j)
      && Next(g, c[j]) == (if j + 1 < |c| then Some(c[j + 1]) else None)
  {
    assert HasChain(g, Some(p), i);
    assert ChainPlaced(g, Chain(g, Some(p), i), Some(p), i);
  }

  lemma EndedIsDone(g: Graph, s: State, p: Id, i: nat, j: nat)
    requires WellFormed(g) && Inv(g, s) && (p, i) in s.ended && p in g.kids && i < |g.kids[p]| && j < |g.kids[p][i]|
    ensures g.kids[p][i][j] in s.done
  {
    hide WellFormed, Next, Parents, Counters;
    var last := |g.kids[p][i]| - 1;
    PlaceIn(g, p, i, last);
    assert (p, i) in s.leaving + s.ended;
    BeforeIsDone(g, s, p, i, j);
  }

  /** A parallel task calls done() only after every task of every one of its chains has. */
  lemma DoneAfterChains(g: Graph, run: seq<Action>, s: State, p: Id, i: nat, j: nat)
    requires WellFormed(g) && Runs(g, Start(g), run, s) && p in g.kids && p in s.ending
    requires i < |g.kids[p]| && j < |g.kids[p][i]|
    ensures g.kids[p][i][j] in s.finished
  {
    hide WellFormed, Next, Runs, Apply, Parents, InOrder, Chains;
    StartKeeps(g);
    RunKeeps(g, Start(g), run, s);
    AllEnded(g, s, p, i);
    EndedIsDone(g, s, p, i, j);
  }

  lemma AllEnded(g: Graph, s: State, p: Id, i: nat)
    requires Counters(g, s.started, s.ending, s.nleft, s.index, s.ended)
    requires p in g.kids && p in s.ending && p in s.started && i < |g.kids[p]|
    ensures (p, i) in s.ended
  {
    if (p, i) !in s.ended { Unfinished(g, s, p, i); }
  }

  // ---------- finite jobs end, with everything done ----------

  ghost function AllChains(g: Graph): set<(Id, nat)> {
    set p, i: nat | p in g.kids && 0 <= i < |g.kids[p]| :: (p, i)
  }

  ghost function Progress(s: State): nat {
    |s.started| + |s.ending| + |s.done| + |s.ended|
  }

  lemma ProgressBounded(g: Graph, s: State)
    requires WellFormed(g) && Inv(g, s)
    ensures Progress(s) <= 3 * |g.pos.Keys| + |AllChains(g)|
  {
    hide WellFormed, Next, InOrder, Parents, Counters;
    Fewer(s.started, g.pos.Keys);
    Fewer(s.ending, g.pos.Keys);
    Fewer(s.done, g.pos.Keys);
    forall c | c in s.ended ensures c in AllChains(g) {
      assert c in s.leaving + s.ended;
      assert c == (c.0, c.1);
    }
    Fewer(s.ended, AllChains(g));
  }

  /** Nothing is ever taken back, and each step adds something. */
  lemma StepProgresses(g: Graph, s: State, a: Action)
    requires WellFormed(g) && Inv(g, s) && Enabled(g, s, a)
    ensures Progress(s) < Progress(Apply(g, s, a))
  {
    hide WellFormed, Next, InOrder, Parents, Counters, Chains, Once, Progress;
    var d := Apply(g, s, a);
    match a
    case Loop(p) => LoopStarts(g, s, p); Grown(s, d);
    case Finish(t) => Grown(s, d);
    case Done(t) => Grown(s, d);
    case Hand(t) => HandStarts(g, s, t); Grown(s, d);
    case Count(p, i) => Apart(g, s, (p, i)); Grown(s, d);
  }

  lemma HandStarts(g: Graph, s: State, t: Id)
    requires WellFormed(g) && Inv(g, s) && Enabled(g, s, Hand(t))
    ensures exists n :: n !in s.started && Apply(g, s, Hand(t)).started == s.started + {n}
  {
    hide WellFormed, Chains, Counters, Parents;
    NextStarted(g, s.started, s.done, s.handing, s.index, t);
    assert Apply(g, s, Hand(t)).started == s.started + {Next(g, t).value};
  }

  lemma Apart(g: Graph, s: State, c: (Id, nat))
    requires WellFormed(g) && Inv(g, s) && c in s.leaving
    ensures c !in s.ended
  {
  }

  lemma Grown(s: State, d: State)
    requires s.started <= d.started && s.ending <= d.ending && s.done <= d.done && s.ended <= d.ended
    requires s.started != d.started || s.ending != d.ending || s.done != d.done || s.ended != d.ended
    ensures Progress(s) < Progress(d)
  {
    FewerStrictly(s.started, d.started);
    FewerStrictly(s.ending, d.ending);
    FewerStrictly(s.done, d.done);
    FewerStrictly(s.ended, d.ended);
  }

  lemma FewerStrictly<T>(a: set<T>, b: set<T>)
    requires a <= b
    ensures |a| <= |b| && (a != b ==> |a| < |b|)
  {
    Fewer(a, b);
    if a != b {
      var x :| x in b && x !in a;
      Fewer(a + {x}, b);
    }
  }

  lemma LoopStarts(g: Graph, s: State, p: Id)
    requires WellFormed(g) && Inv(g, s) && Enabled(g, s, Loop(p))
    ensures exists c :: c !in s.started && Apply(g, s, Loop(p)).started == s.started + {c}
  {
    HeadPlace(g, p, s.index[p]);
    var c := g.kids[p][s.index[p]][0];
    HeadStarted(g, s.started, s.done, s.handing, s.index, p, c);
  }

  /** Every run is finite: it has at most three steps for a task and one for a chain. */
  lemma {:induction false} RunsAreBounded(g: Graph, s: State, run: seq<Action>, t: State)
    requires WellFormed(g) && Inv(g, s) && Runs(g, s, run, t)
    ensures Progress(s) + |run| <= 3 * |g.pos.Keys| + |AllChains(g)|
    decreases |run|
  {
    hide WellFormed, Inv, Apply, Enabled, Progress;
    if run == [] {
      ProgressBounded(g, s);
    } else {
      StepProgresses(g, s, run[0]);
      StepKeeps(g, s, run[0]);
      RunsAreBounded(g, Apply(g, s, run[0]), run[1..], t);
    }
  }

  ghost predicate Quiet(g: Graph, s: State) {
    forall a :: !Enabled(g, s, a)
  }

  lemma {:induction false} StartedIsDone(g: Graph, s: State, t: Id)
    requires WellFormed(g) && Inv(g, s) && Quiet(g, s) && t in s.started && t in g.height
    ensures t in s.done
    decreases g.height[t], 1, 0
  {
    hide Next, InOrder, Chains, Once;
    assert s.started <= g.pos.Keys by { InKeys(g, s); }
    if t in g.kids {
      forall i | 0 <= i < |g.kids[t]| ensures (t, i) in s.ended { ChainEnds(g, s, t, i); }
      assert EndedOf(s.ended, t, |g.kids[t]|) == Upto(|g.kids[t]|);
    } else {
      assert !Enabled(g, s, Finish(t));
    }
    assert !Enabled(g, s, Done(t));
  }

  lemma NobodyHands(g: Graph, s: State, t: Id)
    requires WellFormed(g) && Inv(g, s) && Quiet(g, s)
    ensures t !in s.handing
  {
    hide WellFormed, Next, Chains, Counters;
    assert !Enabled(g, s, Hand(t));
  }

  lemma InKeys(g: Graph, s: State)
    requires Once(g, s)
    ensures s.started <= g.pos.Keys && s.done <= s.started
  {
  }

  lemma {:induction false} ChainEnds(g: Graph, s: State, p: Id, i: nat)
    requires WellFormed(g) && Inv(g, s) && Quiet(g, s) && p in s.started && p in g.height
    requires p in g.kids && i < |g.kids[p]|
    ensures (p, i) in s.ended
    decreases g.height[p], 0, |g.kids[p][i]| + 1
  {
    hide Next, InOrder, Chains, Once, WellFormed;
    HeadPlace(g, p, i);
    var last := |g.kids[p][i]| - 1;
    ChainRuns(g, s, p, i, last);
    PlaceIn(g, p, i, last);
    LastCounted(g, s, g.kids[p][i][last]);
    assert !Enabled(g, s, Count(p, i));
  }

  lemma LastCounted(g: Graph, s: State, t: Id)
    requires WellFormed(g) && Inv(g, s) && t in g.pos && g.pos[t].par.Some? && Next(g, t).None? && t in s.done
    ensures (g.pos[t].par.value, g.pos[t].chain) in s.leaving + s.ended
  {
  }

  /** The dispatch loop of a started parallel task has been through. */
  lemma HeadRuns(g: Graph, s: State, p: Id, i: nat, t: Id)
    requires WellFormed(g) && Inv(g, s) && Quiet(g, s) && p in s.started && p in g.kids && i < |g.kids[p]|
    requires t in g.pos && g.pos[t] == Pos(Some(p), i, 0)
    ensures t in s.started
  {
    hide WellFormed, Next, Chains, Parents, Once, EndedOf;
    assert !Enabled(g, s, Loop(p));
  }

  lemma NextRuns(g: Graph, s: State, t: Id)
    requires WellFormed(g) && Inv(g, s) && Quiet(g, s) && t in s.done && t in g.pos && Next(g, t).Some?
    ensures Next(g, t).value in s.started
  {
    hide WellFormed, Next, Chains, Parents, Once, Counters, Quiet;
    NobodyHands(g, s, t);
  }

  lemma {:induction false} ChainRuns(g: Graph, s: State, p: Id, i: nat, j: nat)
    requires WellFormed(g) && Inv(g, s) && Quiet(g, s) && p in s.started && p in g.height
    requires p in g.kids && i < |g.kids[p]| && j < |g.kids[p][i]|
    ensures g.kids[p][i][j] in s.done
    decreases g.height[p], 0, j
  {
    hide Inv, Next, Quiet, WellFormed;
    var t := g.kids[p][i][j];
    PlaceIn(g, p, i, j);
    if j == 0 {
      HeadRuns(g, s, p, i, t);
    } else {
      PlaceIn(g, p, i, j - 1);
      ChainRuns(g, s, p, i, j - 1);
      NextRuns(g, s, g.kids[p][i][j - 1]);
    }
    Lower(g, t);
    StartedIsDone(g, s, t);
  }

  lemma Lower(g: Graph, t: Id)
    requires WellFormed(g) && t in g.pos
    ensures t in g.height
    ensures g.pos[t].par.Some? ==> g.pos[t].par.value in g.height && g.height[t] < g.height[g.pos[t].par.value]
  {
  }

  lemma TopIn(g: Graph, j: nat)
    requires WellFormed(g) && j < |g.top|
    ensures g.top[j] in g.pos && g.pos[g.top[j]] == Pos(None, 0, j)
    ensures j + 1 < |g.top| ==> Next(g, g.top[j]) == Some(g.top[j + 1])
  {
    assert HasChain(g, None, 0);
    assert ChainPlaced(g, Chain(g, None, 0), None, 0);
  }

  lemma {:induction false} TopRuns(g: Graph, s: State, j: nat)
    requires WellFormed(g) && Inv(g, s) && Quiet(g, s) && j < |g.top|
    ensures g.top[j] in s.done
  {
    hide WellFormed, Next, Quiet, Chains, Counters, Parents;
    TopIn(g, j);
    if j > 0 {
      TopRuns(g, s, j - 1);
      TopIn(g, j - 1);
      NobodyHands(g, s, g.top[j - 1]);
    }
    HeightOfAll(g);
    StartedIsDone(g, s, g.top[j]);
  }

  /** A task whose parent is done is done as well. */
  lemma {:induction false} UnderDone(g: Graph, s: State, t: Id, bound: nat)
    requires WellFormed(g) && Inv(g, s) && Quiet(g, s) && t in g.pos && t in g.height && Depth(g, bound)
    requires g.height[t] <= bound
    ensures t in s.done
    decreases bound - g.height[t]
  {
    var p := g.pos[t].par;
    if p.None? {
      TopRuns(g, s, g.pos[t].at);
    } else {
      UnderDone(g, s, p.value, bound);
      InKeys(g, s);
      ChainRuns(g, s, p.value, g.pos[t].chain, g.pos[t].at);
    }
  }

  ghost predicate Depth(g: Graph, bound: nat) {
    forall t :: t in g.height ==> g.height[t] <= bound
  }

  lemma {:induction false} HasDepth(h: map<Id, nat>) returns (bound: nat)
    ensures forall t :: t in h ==> h[t] <= bound
    decreases |h|
  {
    if h == map[] {
      bound := 0;
    } else {
      var t :| t in h;
      var rest := h - {t};
      bound := HasDepth(rest);
      assert forall u :: u in h && u != t ==> u in rest && rest[u] == h[u];
      if h[t] > bound { bound := h[t]; }
    }
  }

  /** When nobody has anything left to do, every task of the job has been dispatched and done
      exactly once. */
  lemma QuietIsFinished(g: Graph, run: seq<Action>, s: State)
    requires WellFormed(g) && Runs(g, Start(g), run, s) && Quiet(g, s)
    ensures s.dispatched == multiset(g.pos.Keys) && s.finished == multiset(g.pos.Keys)
  {
    hide WellFormed, Runs, Apply, InOrder, Parents, Chains, Counters, Quiet;
    StartKeeps(g);
    RunKeeps(g, Start(g), run, s);
    var bound := HasDepth(g.height);
    HeightOfAll(g);
    forall t | t in g.pos ensures t in s.done { UnderDone(g, s, t, bound); }
    assert s.done == g.pos.Keys && s.started == g.pos.Keys;
  }

  lemma HeightOfAll(g: Graph)
    requires WellFormed(g)
    ensures g.height.Keys == g.pos.Keys
  {
  }
}
