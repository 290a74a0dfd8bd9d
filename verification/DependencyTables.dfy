/**
 * The `num_parents` and `children` dictionaries that topsort.py builds from its (parent, child) pairs.
 * Pairs may repeat and may be self-loops; counts are with multiplicity.
 */
module DependencyTables {
  import opened Sequences
  import opened Digraph

  ghost function Edges<T>(pairs: seq<(T, T)>): set<(T, T)> {
    set p | p in pairs
  }

  ghost function Elements<T>(pairs: seq<(T, T)>): set<T> {
    Nodes(Edges(pairs))
  }

  /** How many pairs lead into `x` from a parent that is not in `done`. */
  ghost function Pending<T>(pairs: seq<(T, T)>, done: set<T>, x: T): nat {
    if pairs == [] then 0
    else
      var p := Last(pairs);
      Pending(pairs[..|pairs| - 1], done, x) + if p.1 == x && p.0 !in done then 1 else 0
  }

  /** The children of `p` in pair order, repeats included. */
  ghost function ChildrenOf<T>(pairs: seq<(T, T)>, p: T): seq<T> {
    if pairs == [] then []
    else
      ChildrenOf(pairs[..|pairs| - 1], p) + if Last(pairs).0 == p then [Last(pairs).1] else []
  }

  lemma {:induction false} PendingZero<T>(pairs: seq<(T, T)>, done: set<T>, x: T)
    ensures Pending(pairs, done, x) == 0 <==> forall e :: e in Edges(pairs) && e.1 == x ==> e.0 in done
  {
    if pairs == [] {
    } else {
      var front := pairs[..|pairs| - 1];
      PendingZero(front, done, x);
      assert pairs == front + [Last(pairs)];
      assert Edges(pairs) == Edges(front) + {Last(pairs)};
    }
  }

  lemma {:induction false} PendingStep<T>(pairs: seq<(T, T)>, done: set<T>, p: T, x: T)
    requires p !in done
    ensures Pending(pairs, done, x) == Pending(pairs, done + {p}, x) + multiset(ChildrenOf(pairs, p))[x]
  {
    if pairs == [] {
    } else {
      PendingStep(pairs[..|pairs| - 1], done, p, x);
    }
  }

  lemma {:induction false} ChildrenAreEdges<T>(pairs: seq<(T, T)>, p: T, c: T)
    ensures c in ChildrenOf(pairs, p) <==> (p, c) in Edges(pairs)
  {
    if pairs == [] {
    } else {
      var front := pairs[..|pairs| - 1];
      ChildrenAreEdges(front, p, c);
      assert pairs == front + [Last(pairs)];
    }
  }

  /** The two dictionaries once the elements of `done` have been processed. */
  ghost predicate Tables<T(!new)>(pairs: seq<(T, T)>, all: set<T>, done: set<T>,
                                  numParents: map<T, int>, children: map<T, seq<T>>)
  {
    && Elements(pairs) <= all
    && numParents.Keys == all - done
    && (forall x :: x in numParents ==> numParents[x] == Pending(pairs, done, x))
    && (forall p :: p in children ==> p !in done && children[p] == ChildrenOf(pairs, p))
    && (forall p :: p !in done && p !in children ==> ChildrenOf(pairs, p) == [])
  }

  method BuildTables<T(==, !new)>(pairs: seq<(T, T)>)
    returns (numParents: map<T, int>, children: map<T, seq<T>>)
    ensures Tables(pairs, Elements(pairs), {}, numParents, children)
  {
    numParents, children := map[], map[];
    for k := 0 to |pairs|
      invariant Tables(pairs[..k], Elements(pairs[..k]), {}, numParents, children)
    {
      ghost var np, ch := numParents, children;
      var (parent, child) := pairs[k];
      if parent !in numParents {
        numParents := numParents[parent := 0];
      }
      if child !in numParents {
        numParents := numParents[child := 0];
      }
      numParents := numParents[child := numParents[child] + 1];
      children := children[parent := (if parent in children then children[parent] else []) + [child]];
      TablesExtend(pairs, k, np, ch, numParents, children);
    }
    assert pairs[..|pairs|] == pairs;
  }

  lemma PairsExtend<T>(pairs: seq<(T, T)>, k: nat, x: T)
    requires k < |pairs|
    ensures Elements(pairs[..k + 1]) == Elements(pairs[..k]) + {pairs[k].0, pairs[k].1}
    ensures x !in Elements(pairs[..k]) ==> Pending(pairs[..k], {}, x) == 0
    ensures Pending(pairs[..k + 1], {}, x) == Pending(pairs[..k], {}, x) + if pairs[k].1 == x then 1 else 0
    ensures ChildrenOf(pairs[..k + 1], x)
            == ChildrenOf(pairs[..k], x) + if pairs[k].0 == x then [pairs[k].1] else []
  {
    var more, fewer := pairs[..k + 1], pairs[..k];
    assert more[..|more| - 1] == fewer && Last(more) == pairs[k];
    assert more == fewer + [pairs[k]];
    assert Edges(more) == Edges(fewer) + {pairs[k]};
    PendingZero(fewer, {}, x);
  }

  lemma TablesExtend<T(!new)>(pairs: seq<(T, T)>, k: nat, np: map<T, int>, ch: map<T, seq<T>>,
                              np': map<T, int>, ch': map<T, seq<T>>)
    requires k < |pairs| && Tables(pairs[..k], Elements(pairs[..k]), {}, np, ch)
    requires np'.Keys == np.Keys + {pairs[k].0, pairs[k].1}
    requires forall x :: x in np' ==> np'[x] == (if x in np then np[x] else 0) + if x == pairs[k].1 then 1 else 0
    requires ch' == ch[pairs[k].0 := (if pairs[k].0 in ch then ch[pairs[k].0] else []) + [pairs[k].1]]
    ensures Tables(pairs[..k + 1], Elements(pairs[..k + 1]), {}, np', ch')
  {
    hide Pending, ChildrenOf;
    PairsExtend(pairs, k, pairs[k].0);
    forall x | x in np' ensures np'[x] == Pending(pairs[..k + 1], {}, x) {
      PairsExtend(pairs, k, x);
    }
    forall p ensures if p in ch' then ch'[p] == ChildrenOf(pairs[..k + 1], p) else ChildrenOf(pairs[..k + 1], p) == [] {
      PairsExtend(pairs, k, p);
    }
  }

  /** The keys counted zero, in whatever order the dictionary lists them. */
  method WithoutParents<T(==, !new)>(numParents: map<T, int>) returns (roots: seq<T>)
    ensures NoDup(roots)
    ensures forall x :: x in roots <==> x in numParents && numParents[x] == 0
  {
    roots := [];
    var rest := numParents.Keys;
    while rest != {}
      invariant rest <= numParents.Keys
      invariant NoDup(roots)
      invariant forall x :: x in roots <==> x in numParents && x !in rest && numParents[x] == 0
    {
      var x :| x in rest;
      rest := rest - {x};
      if numParents[x] == 0 {
        roots := roots + [x];
      }
    }
  }
}
