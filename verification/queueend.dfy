/** Everything that is given to a message queue can be got from it again (src/kernel/msgqueue.cc). */
module QueueEnd {
  import opened Common
  import opened QueueProtocol

  /** There is nothing more to get; on a queue that blocks a get may be waiting. */
  ghost predicate Over(s: State) {
    s.get == [] && s.put == [] && s.waiting == multiset{} && s.putter.NoPutter?
    && (s.getter.NoGetter? || (s.getter.Emptied? && !s.nonblock))
  }

  ghost predicate CanHold(s: State) { s.max > 0 || s.nonblock }

  /** Somebody's next step, so that messages get through; nobody gives new ones. */
  ghost function Onward(s: State): Action
    requires !Over(s)
  {
    match s.getter
    case Prepending(_) => HeadPrepends
    case Ready => GetTakes
    case NoGetter =>
      (match s.putter
       case FoundFull(_) => HeadLocks
       case FoundEmpty(_) => HeadWrites
       case NoPutter => if s.get == [] && s.put == [] && s.waiting != multiset{} then HeadWakes(Any(s.waiting)) else GetEnters)
    case Emptied =>
      (match s.putter
       case FoundFull(_) => HeadLooksAgain
       case FoundEmpty(_) => HeadWrites
       case NoPutter => if s.put == [] && s.waiting != multiset{} then HeadWakes(Any(s.waiting)) else GetSwaps)
  }

  ghost function Any(q: multiset<Msg>): (m: Msg)
    ensures q != multiset{} ==> m in q
  {
    if q == multiset{} then 0 else var m :| m in q; m
  }

  ghost function GetterToDo(g: Getter, empty: bool): nat {
    match g
    case NoGetter => if empty then 0 else 4
    case Emptied => 3
    case Ready => 0
    case Prepending(_) => 11
  }

  ghost function PutterToDo(p: Putter): nat {
    match p
    case NoPutter => 0
    case FoundFull(_) => 14
    case FoundEmpty(_) => 12
  }

  ghost function ToDo(s: State): nat {
    6 * |s.get| + 7 * |s.put| + 12 * |s.waiting| + GetterToDo(s.getter, s.get == [] && s.put == []) + PutterToDo(s.putter)
  }

  ghost predicate SameGiven(s: State, t: State) {
    t.entered == s.entered && t.max == s.max && t.nonblock == s.nonblock
  }

  lemma GetterGoesOn(s: State)
    requires Inv(s) && !Over(s) && (s.getter.Prepending? || s.getter.Ready?)
    ensures Enabled(s, Onward(s)) && ToDo(Apply(s, Onward(s))) < ToDo(s) && SameGiven(s, Apply(s, Onward(s)))
  {
    hide Kept;
  }

  lemma PutterGoesOn(s: State)
    requires Inv(s) && !Over(s) && (s.getter.NoGetter? || s.getter.Emptied?) && !s.putter.NoPutter?
    ensures Enabled(s, Onward(s)) && ToDo(Apply(s, Onward(s))) < ToDo(s) && SameGiven(s, Apply(s, Onward(s)))
  {
    hide Kept;
  }

  lemma OthersGoOn(s: State)
    requires Inv(s) && CanHold(s) && !Over(s) && (s.getter.NoGetter? || s.getter.Emptied?) && s.putter.NoPutter?
    ensures Enabled(s, Onward(s)) && ToDo(Apply(s, Onward(s))) < ToDo(s) && SameGiven(s, Apply(s, Onward(s)))
  {
    hide Kept;
    var a := Onward(s);
    if a.HeadWakes? { assert |s.waiting - multiset{a.msg}| == |s.waiting| - 1; }
  }

  lemma GoesOn(s: State)
    requires Inv(s) && CanHold(s) && !Over(s)
    ensures Enabled(s, Onward(s)) && ToDo(Apply(s, Onward(s))) < ToDo(s) && SameGiven(s, Apply(s, Onward(s)))
  {
    hide Inv, Enabled, Apply, ToDo, Onward;
    if s.getter.Prepending? || s.getter.Ready? {
      GetterGoesOn(s);
    } else if !s.putter.NoPutter? {
      PutterGoesOn(s);
    } else {
      OthersGoOn(s);
    }
  }

  lemma {:induction false} ComesThrough(s: State) returns (run: seq<Action>, t: State)
    requires Inv(s) && CanHold(s)
    ensures Runs(s, run, t) && Inv(t) && Over(t) && SameGiven(s, t)
    decreases ToDo(s)
  {
    hide Inv, Enabled, Apply, ToDo, Onward, Over;
    if Over(s) {
      run, t := [], s;
    } else {
      var a := Onward(s);
      GoesOn(s);
      StepKeeps(s, a);
      run, t := ComesThrough(Apply(s, a));
      assert ([a] + run)[1..] == run;
      run := [a] + run;
    }
  }

  /** From every reachable state of a queue that can hold a message at all there is a run in which
      nothing new is given and everything that was given comes out, as often as it was given. */
  lemma AllComeOut(max: nat, pre: seq<Action>, s: State) returns (run: seq<Action>, t: State)
    requires Runs(Empty(max), pre, s) && CanHold(s)
    ensures Runs(s, run, t) && t.entered == s.entered && multiset(t.taken) == t.entered
  {
    hide Runs, Enabled, Apply;
    EmptyInv(max);
    RunKeeps(Empty(max), pre, s);
    run, t := ComesThrough(s);
    forall m ensures multiset(t.taken)[m] == t.entered[m] { AllTaken(t, m); }
  }

  lemma AllTaken(s: State, m: Msg)
    requires Inv(s) && Over(s)
    ensures multiset(s.taken)[m] == s.entered[m]
  {
    assert s.entered[m] == Held(s, m);
  }
}
