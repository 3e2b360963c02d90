/** Small vocabulary shared by all models. */
module Common {

  datatype Option<T> = None | Some(value: T)

  ghost function One(b: bool): nat {
    if b then 1 else 0
  }

  predicate NoDup<T(==)>(s: seq<T>) {
    forall i, j :: 0 <= i < j < |s| ==> s[i] != s[j]
  }

  lemma Differ<T>(s: seq<T>, i: nat, j: nat)
    requires NoDup(s) && i < |s| && j < |s| && i != j
    ensures s[i] != s[j]
  {
  }

  lemma NoDupPlus<T>(s: seq<T>, x: T)
    requires NoDup(s) && x !in s
    ensures NoDup(s + [x])
  {
    forall i, j | 0 <= i < j < |s + [x]| ensures (s + [x])[i] != (s + [x])[j] {
      assert (s + [x])[i] == s[i];
      if j < |s| { Differ(s, i, j); }
    }
  }

  function Elems<T(==)>(s: seq<T>): set<T> {
    set x | x in s
  }

  ghost function Count<T>(q: seq<T>, x: T): nat {
    multiset(q)[x]
  }

  lemma CountSum<T>(a: seq<T>, b: seq<T>, x: T)
    ensures Count(a + b, x) == Count(a, x) + Count(b, x)
  {
    assert multiset(a + b) == multiset(a) + multiset(b);
  }
}
