/** Facts about finite sequences that every other module builds on. */
module Sequences {

  ghost predicate NoDup<T>(s: seq<T>) {
    forall i, j :: 0 <= i < j < |s| ==> s[i] != s[j]
  }

  ghost function Elems<T>(s: seq<T>): set<T> {
    set x | x in s
  }

  function Last<T>(s: seq<T>): T
    requires |s| > 0
  {
    s[|s| - 1]
  }

  /** A duplicate-free sequence is no longer than any finite set that holds all its elements. */
  lemma {:induction false} NoDupBound<T>(s: seq<T>, bound: set<T>)
    requires NoDup(s) && (forall x :: x in s ==> x in bound)
    ensures |s| <= |bound|
    decreases |s|
  {
    if s == [] {
    } else {
      var front := s[..|s| - 1];
      forall x | x in front ensures x in bound - {Last(s)} {
        var i :| 0 <= i < |front| && front[i] == x;
        assert s[i] == x;
      }
      NoDupBound(front, bound - {Last(s)});
    }
  }

  /** The pigeonhole principle: a longer sequence must repeat an element. */
  lemma Repetition<T>(s: seq<T>, bound: set<T>) returns (i: nat, j: nat)
    requires (forall x :: x in s ==> x in bound) && |s| > |bound|
    ensures i < j < |s| && s[i] == s[j]
  {
    if NoDup(s) {
      NoDupBound(s, bound);
      assert false;
    }
    i, j :| 0 <= i < j < |s| && s[i] == s[j];
  }

  lemma NoDupConcat<T>(s: seq<T>, t: seq<T>)
    requires NoDup(s) && NoDup(t) && forall x :: x in t ==> x !in s
    ensures NoDup(s + t)
  {
    var all := s + t;
    forall i, j | 0 <= i < j < |all| ensures all[i] != all[j] {
      if i < |s| <= j {
        assert all[i] in s && all[j] in t;
      }
    }
  }

  lemma NoDupCons<T>(x: T, s: seq<T>)
    ensures NoDup([x] + s) <==> x !in s && NoDup(s)
  {
    var all := [x] + s;
    assert forall i :: 0 <= i < |s| ==> all[i + 1] == s[i];
    assert all[0] == x;
    if NoDup(all) {
      forall i, j | 0 <= i < j < |s| ensures s[i] != s[j] {
        assert all[i + 1] != all[j + 1];
      }
    }
  }

  lemma {:induction false} NoDupCard<T>(s: seq<T>)
    requires NoDup(s)
    ensures |Elems(s)| == |s|
    decreases |s|
  {
    if s == [] {
    } else {
      var front := s[..|s| - 1];
      NoDupCard(front);
      assert s == front + [Last(s)];
      assert Elems(s) == Elems(front) + {Last(s)};
    }
  }

  /** Two duplicate-free sequences with the same elements are permutations of each other. */
  lemma {:induction false} SameElemsPermutation<T>(s: seq<T>, t: seq<T>)
    requires NoDup(s) && NoDup(t)
    requires forall x :: x in s <==> x in t
    ensures multiset(s) == multiset(t)
  {
    forall x ensures multiset(s)[x] == multiset(t)[x] {
      NoDupMultiplicity(s, x);
      NoDupMultiplicity(t, x);
    }
  }

  lemma {:induction false} NoDupMultiplicity<T>(s: seq<T>, x: T)
    requires NoDup(s)
    ensures multiset(s)[x] == if x in s then 1 else 0
    decreases |s|
  {
    if s == [] {
    } else {
      var front := s[..|s| - 1];
      NoDupMultiplicity(front, x);
      assert s == front + [Last(s)];
    }
  }
}
