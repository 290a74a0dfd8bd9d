/** The first-in-first-out worklist of `topsort` in topsort.py. */
module Topsort {
  import opened Sequences
  import opened Digraph
  import opened DependencyTables

  /** A sorted list, or the three arguments of the raised CycleError. */
  datatype SortOutcome<T> =
    | Sorted(answer: seq<T>)
    | CycleError(answer: seq<T>, numParents: map<T, int>, children: map<T, seq<T>>)

  /**
   * The worklist order: `rel[j]` is the position of the parent whose processing released `answer[j]`,
   * or -1 when the element was there from the start. Releases happen in list order.
   */
  ghost predicate FifoOrder<T(!new)>(E: set<(T, T)>, answer: seq<T>, rel: seq<int>) {
    && |rel| == |answer|
    && (forall j :: 0 <= j < |rel| ==> -1 <= rel[j] < j)
    && (forall j, k :: 0 <= j < k < |rel| ==> rel[j] <= rel[k])
    && (forall j :: 0 <= j < |rel| ==> ReleasedBy(E, answer, j, rel[j]))
  }

  ghost predicate ReleasedBy<T(!new)>(E: set<(T, T)>, answer: seq<T>, j: nat, b: int)
    requires -1 <= b < |answer| && j < |answer|
  {
    && (b >= 0 ==> (answer[b], answer[j]) in E)
    && (forall e :: e in E && e.1 == answer[j] ==> e.0 in answer[..b + 1])
  }

  /** Position `t` is the last occurrence of `x`. */
  ghost predicate LastAt<T>(cs: seq<T>, x: T, t: nat) {
    t < |cs| && cs[t] == x && x !in cs[t + 1..]
  }

  ghost predicate Before<T>(cs: seq<T>, x: T, y: T) {
    exists s: nat, t: nat :: s < t && LastAt(cs, x, s) && LastAt(cs, y, t)
  }

  /** Elements released by the same parent come in the order in which it lists them last. */
  ghost predicate SiblingOrder<T(!new)>(pairs: seq<(T, T)>, answer: seq<T>, rel: seq<int>) {
    && |rel| == |answer| && (forall k :: 0 <= k < |rel| ==> rel[k] < |answer|)
    && forall a, b :: 0 <= a < b < |answer| && rel[a] == rel[b] >= 0 ==>
         Before(ChildrenOf(pairs, answer[rel[a]]), answer[a], answer[b])
  }

  /** The elements that `answer[i]` has released so far were listed last among its first `j` children. */
  ghost predicate ReleasedSoFar<T>(answer: seq<T>, i: nat, rel: seq<int>, cs: seq<T>, j: nat)
    requires |rel| == |answer|
  {
    forall a :: 0 <= a < |answer| && rel[a] == i ==> exists s: nat :: s < j && LastAt(cs, answer[a], s)
  }

  /** State between two rounds of the outer loop. */
  ghost predicate Worklist<T(!new)>(pairs: seq<(T, T)>, answer: seq<T>, i: nat, rel: seq<int>,
                                    numParents: map<T, int>, children: map<T, seq<T>>)
  {
    && i <= |answer|
    && NoDup(answer)
    && FifoOrder(Edges(pairs), answer, rel)
    && (forall j :: 0 <= j < |rel| ==> rel[j] < i)
    && Tables(pairs, Elements(pairs), Elems(answer[..i]), numParents, children)
    && (forall x :: x in numParents ==> (numParents[x] == 0 <==> x in answer[i..]))
    && (forall x :: x in answer ==> x in Elements(pairs))
  }

  /** State inside the loop over the children `cs` of `answer[i]`, `j` of which have been counted down. */
  ghost predicate Releasing<T(!new)>(pairs: seq<(T, T)>, answer: seq<T>, i: nat, rel: seq<int>,
                                     cs: seq<T>, j: nat, numParents: map<T, int>)
  {
    && i < |answer| && j <= |cs|
    && NoDup(answer)
    && cs == ChildrenOf(pairs, answer[i])
    && FifoOrder(Edges(pairs), answer, rel)
    && (forall k :: 0 <= k < |rel| ==> rel[k] <= i)
    && numParents.Keys == Elements(pairs) - Elems(answer[..i + 1])
    && (forall x :: x in numParents ==>
          && numParents[x] == Pending(pairs, Elems(answer[..i]), x) - multiset(cs[..j])[x]
          && (numParents[x] == 0 <==> x in answer[i + 1..]))
    && (forall x :: x in answer ==> x in Elements(pairs))
  }

  ghost predicate RemainingChildren<T(!new)>(pairs: seq<(T, T)>, done: seq<T>, children: map<T, seq<T>>) {
    && (forall p :: p in children ==> p !in done && children[p] == ChildrenOf(pairs, p))
    && (forall p :: p !in done && p !in children ==> ChildrenOf(pairs, p) == [])
  }

  lemma ReleasingStart<T(!new)>(pairs: seq<(T, T)>, answer: seq<T>, i: nat, rel: seq<int>,
                                numParents: map<T, int>, children: map<T, seq<T>>)
    requires Worklist(pairs, answer, i, rel, numParents, children) && i < |answer|
    ensures answer[i] in numParents
    ensures Releasing(pairs, answer, i, rel, ChildrenOf(pairs, answer[i]), 0, numParents - {answer[i]})
  {
    assert answer[i..][0] == answer[i];
    assert answer[i..] == [answer[i]] + answer[i + 1..];
    assert answer[..i + 1] == answer[..i] + [answer[i]];
    assert Elems(answer[..i + 1]) == Elems(answer[..i]) + {answer[i]};
    assert forall k :: 0 <= k < i ==> answer[k] != answer[i];
  }

  lemma ReleasingStartChildren<T(!new)>(pairs: seq<(T, T)>, answer: seq<T>, i: nat, rel: seq<int>,
                                        numParents: map<T, int>, children: map<T, seq<T>>)
    requires Worklist(pairs, answer, i, rel, numParents, children) && i < |answer|
    ensures if answer[i] in children then children[answer[i]] == ChildrenOf(pairs, answer[i])
            else ChildrenOf(pairs, answer[i]) == []
    ensures RemainingChildren(pairs, answer[..i + 1], children - {answer[i]})
  {
    assert Tables(pairs, Elements(pairs), Elems(answer[..i]), numParents, children);
    assert answer[i] !in Elems(answer[..i]) by {
      ReleasingStart(pairs, answer, i, rel, numParents, children);
    }
    hide Worklist, FifoOrder, NoDup, Pending, Elements, ChildrenOf;
    assert answer[..i + 1] == answer[..i] + [answer[i]];
    DropChildren(pairs, answer[..i], answer[i], numParents, children);
  }

  lemma DropChildren<T(!new)>(pairs: seq<(T, T)>, done: seq<T>, x: T, numParents: map<T, int>, children: map<T, seq<T>>)
    requires Tables(pairs, Elements(pairs), Elems(done), numParents, children) && x !in done
    ensures if x in children then children[x] == ChildrenOf(pairs, x) else ChildrenOf(pairs, x) == []
    ensures RemainingChildren(pairs, done + [x], children - {x})
  {
    hide Elements, Pending, ChildrenOf;
  }

  lemma WorklistReleases<T(!new)>(pairs: seq<(T, T)>, answer: seq<T>, i: nat, rel: seq<int>,
                                  numParents: map<T, int>, children: map<T, seq<T>>, cs: seq<T>)
    requires Worklist(pairs, answer, i, rel, numParents, children)
    ensures |rel| == |answer| && ReleasedSoFar(answer, i, rel, cs, 0)
  {
    assert |rel| == |answer|;
    hide FifoOrder, NoDup, Tables;
    NobodyReleased(answer, i, rel, cs, 0);
  }

  lemma ListedParents<T(!new)>(E: set<(T, T)>, answer: seq<T>, rel: seq<int>, i: nat, child: T)
    requires FifoOrder(E, answer, rel) && NoDup(answer) && i < |answer| && (answer[i], child) in E
    requires forall k :: 0 <= k < |rel| ==> rel[k] <= i
    ensures child !in answer[..i + 1]
  {
    forall k | 0 <= k <= i ensures answer[k] != child {
      assert ReleasedBy(E, answer, k, rel[k]);
    }
  }

  /** What the next child looks like just before its count goes down. */
  lemma ChildIsWaiting<T(!new)>(pairs: seq<(T, T)>, answer: seq<T>, i: nat, rel: seq<int>,
                                cs: seq<T>, j: nat, numParents: map<T, int>)
    requires Releasing(pairs, answer, i, rel, cs, j, numParents) && j < |cs|
    ensures cs[j] in numParents && numParents[cs[j]] >= 1 && cs[j] !in answer
    ensures (answer[i], cs[j]) in Edges(pairs)
    ensures numParents[cs[j]] == 1 ==> ReleasedBy(Edges(pairs), answer + [cs[j]], |answer|, i)
  {
    hide FifoOrder, ReleasedBy, Pending, ChildrenOf;
    var parent, child, done := answer[i], cs[j], Elems(answer[..i]);
    var e := (parent, child);
    assert e in Edges(pairs) by { ChildrenAreEdges(pairs, parent, child); }
    assert e.1 in Elements(pairs);
    ListedParents(Edges(pairs), answer, rel, i, child);
    assert parent !in done;
    PendingStep(pairs, done, parent, child);
    StillToCome(cs, j);
    assert answer == answer[..i + 1] + answer[i + 1..];
    if numParents[child] == 1 {
      assert Pending(pairs, done + {parent}, child) == 0;
      OnlyListedParents(pairs, answer, i, child);
    }
  }

  lemma StillToCome<T>(cs: seq<T>, j: nat)
    requires j < |cs|
    ensures multiset(cs)[cs[j]] >= multiset(cs[..j])[cs[j]] + 1
  {
    assert cs == cs[..j] + ([cs[j]] + cs[j + 1..]);
  }

  lemma OnlyListedParents<T(!new)>(pairs: seq<(T, T)>, answer: seq<T>, i: nat, child: T)
    requires i < |answer| && (answer[i], child) in Edges(pairs)
    requires Pending(pairs, Elems(answer[..i]) + {answer[i]}, child) == 0
    ensures ReleasedBy(Edges(pairs), answer + [child], |answer|, i)
  {
    PendingZero(pairs, Elems(answer[..i]) + {answer[i]}, child);
    assert (answer + [child])[..i + 1] == answer[..i] + [answer[i]];
  }

  lemma ReleasingStep<T(!new)>(pairs: seq<(T, T)>, answer: seq<T>, i: nat, rel: seq<int>,
                               cs: seq<T>, j: nat, numParents: map<T, int>)
    requires Releasing(pairs, answer, i, rel, cs, j, numParents) && j < |cs|
    requires cs[j] in numParents && numParents[cs[j]] >= 1 && cs[j] !in answer
    requires numParents[cs[j]] == 1 ==> ReleasedBy(Edges(pairs), answer + [cs[j]], |answer|, i)
    ensures var np := numParents[cs[j] := numParents[cs[j]] - 1];
            if np[cs[j]] == 0
            then Releasing(pairs, answer + [cs[j]], i, rel + [i], cs, j + 1, np)
            else Releasing(pairs, answer, i, rel, cs, j + 1, np)
  {
    hide Pending, ChildrenOf, FifoOrder, ReleasedBy;
    var child := cs[j];
    var np := numParents[child := numParents[child] - 1];
    assert cs[..j + 1] == cs[..j] + [child];
    assert forall x :: x in np ==> np[x] == Pending(pairs, Elems(answer[..i]), x) - multiset(cs[..j + 1])[x];
    if np[child] == 0 {
      var longer, rel' := answer + [child], rel + [i];
      assert longer[..i] == answer[..i] && longer[..i + 1] == answer[..i + 1];
      assert longer[i + 1..] == answer[i + 1..] + [child];
      assert Elements(pairs) >= numParents.Keys;
      FifoExtends(Edges(pairs), answer, rel, child, i);
    }
  }

  /** A child whose count reaches zero does not occur again. */
  lemma LastOccurrence<T(!new)>(pairs: seq<(T, T)>, answer: seq<T>, i: nat, rel: seq<int>,
                                cs: seq<T>, j: nat, numParents: map<T, int>)
    requires Releasing(pairs, answer, i, rel, cs, j, numParents) && j < |cs|
    requires cs[j] in numParents && numParents[cs[j]] == 1
    ensures LastAt(cs, cs[j], j)
  {
    var child, done := cs[j], Elems(answer[..i]);
    assert answer[i] !in done;
    PendingStep(pairs, done, answer[i], child);
    hide FifoOrder, Pending, ChildrenOf;
    assert cs == cs[..j] + [child] + cs[j + 1..];
    assert multiset(cs)[child] == multiset(cs[..j])[child] + 1 + multiset(cs[j + 1..])[child];
  }

  lemma SiblingsExtend<T(!new)>(pairs: seq<(T, T)>, answer: seq<T>, i: nat, rel: seq<int>, cs: seq<T>, j: nat)
    requires SiblingOrder(pairs, answer, rel) && i < |answer| && cs == ChildrenOf(pairs, answer[i])
    requires ReleasedSoFar(answer, i, rel, cs, j) && j < |cs| && LastAt(cs, cs[j], j)
    ensures SiblingOrder(pairs, answer + [cs[j]], rel + [i])
    ensures ReleasedSoFar(answer + [cs[j]], i, rel + [i], cs, j + 1)
  {
    hide ChildrenOf, LastAt;
    var longer, rel' := answer + [cs[j]], rel + [i];
    forall a, b | 0 <= a < b < |longer| && rel'[a] == rel'[b] >= 0
      ensures Before(ChildrenOf(pairs, longer[rel'[a]]), longer[a], longer[b]) {
      if b < |answer| {
        assert Before(ChildrenOf(pairs, answer[rel[a]]), answer[a], answer[b]);
      } else {
        var s: nat :| s < j && LastAt(cs, answer[a], s);
      }
    }
    forall a | 0 <= a < |longer| && rel'[a] == i ensures exists s: nat :: s < j + 1 && LastAt(cs, longer[a], s) {
      if a < |answer| {
        assert rel[a] == i && longer[a] == answer[a];
        var s: nat :| s < j && LastAt(cs, answer[a], s);
        assert s < j + 1 && LastAt(cs, longer[a], s);
      } else {
        assert longer[a] == cs[j];
        assert j < j + 1 && LastAt(cs, longer[a], j);
      }
    }
  }

  /** One round of the inner loop keeps the order of siblings. */
  lemma SiblingsStep<T(!new)>(pairs: seq<(T, T)>, answer: seq<T>, i: nat, rel: seq<int>,
                              cs: seq<T>, j: nat, numParents: map<T, int>)
    requires Releasing(pairs, answer, i, rel, cs, j, numParents) && j < |cs| && cs[j] in numParents
    requires |rel| == |answer| && SiblingOrder(pairs, answer, rel) && ReleasedSoFar(answer, i, rel, cs, j)
    ensures ReleasedSoFar(answer, i, rel, cs, j + 1)
    ensures numParents[cs[j]] == 1 ==>
              && SiblingOrder(pairs, answer + [cs[j]], rel + [i])
              && ReleasedSoFar(answer + [cs[j]], i, rel + [i], cs, j + 1)
  {
    NobodyReleased(answer, i, rel, cs, j);
    if numParents[cs[j]] == 1 {
      ReleasingParent(pairs, answer, i, rel, cs, j, numParents);
      LastOccurrence(pairs, answer, i, rel, cs, j, numParents);
      hide Releasing, SiblingOrder, ReleasedSoFar, LastAt;
      SiblingsExtend(pairs, answer, i, rel, cs, j);
    }
  }

  lemma NobodyReleased<T(!new)>(answer: seq<T>, i: nat, rel: seq<int>, cs: seq<T>, j: nat)
    requires |rel| == |answer|
    ensures (forall k :: 0 <= k < |rel| ==> rel[k] < i) ==> ReleasedSoFar(answer, i, rel, cs, j)
    ensures ReleasedSoFar(answer, i, rel, cs, j) ==> ReleasedSoFar(answer, i, rel, cs, j + 1)
  {
    hide LastAt;
    if ReleasedSoFar(answer, i, rel, cs, j) {
      forall a | 0 <= a < |answer| && rel[a] == i ensures exists s: nat :: s < j + 1 && LastAt(cs, answer[a], s) {
        var s: nat :| s < j && LastAt(cs, answer[a], s);
      }
    }
  }

  lemma FifoExtends<T(!new)>(E: set<(T, T)>, answer: seq<T>, rel: seq<int>, child: T, i: nat)
    requires FifoOrder(E, answer, rel) && i < |answer| && forall k :: 0 <= k < |rel| ==> rel[k] <= i
    requires ReleasedBy(E, answer + [child], |answer|, i)
    ensures FifoOrder(E, answer + [child], rel + [i])
  {
    var longer, rel' := answer + [child], rel + [i];
    forall k | 0 <= k < |rel'| ensures ReleasedBy(E, longer, k, rel'[k]) {
      if k < |rel| {
        assert ReleasedBy(E, answer, k, rel[k]);
        assert longer[..rel[k] + 1] == answer[..rel[k] + 1];
      }
    }
  }

  lemma ReleasingEnd<T(!new)>(pairs: seq<(T, T)>, answer: seq<T>, i: nat, rel: seq<int>, cs: seq<T>,
                              numParents: map<T, int>, children: map<T, seq<T>>)
    requires Releasing(pairs, answer, i, rel, cs, |cs|, numParents)
    requires RemainingChildren(pairs, answer[..i + 1], children)
    ensures Worklist(pairs, answer, i + 1, rel, numParents, children)
  {
    hide FifoOrder, Pending, ChildrenOf;
    var done := Elems(answer[..i]);
    assert answer[..i + 1] == answer[..i] + [answer[i]];
    assert Elems(answer[..i + 1]) == done + {answer[i]};
    assert answer[i] !in done;
    assert cs[..|cs|] == cs;
    forall x | x in numParents ensures numParents[x] == Pending(pairs, done + {answer[i]}, x) {
      PendingStep(pairs, done, answer[i], x);
    }
  }

  lemma FifoIsParentsFirst<T(!new)>(E: set<(T, T)>, answer: seq<T>, rel: seq<int>)
    requires FifoOrder(E, answer, rel)
    ensures ParentsFirst(E, answer)
  {
    forall e, j | e in E && 0 <= j < |answer| && answer[j] == e.1 ensures e.0 in answer[..j] {
      assert ReleasedBy(E, answer, j, rel[j]);
    }
  }

  lemma WorklistEnd<T(!new)>(pairs: seq<(T, T)>, answer: seq<T>, i: nat, rel: seq<int>,
                             numParents: map<T, int>, children: map<T, seq<T>>)
    requires i >= |answer| && Worklist(pairs, answer, i, rel, numParents, children)
    ensures NoDup(answer) && FifoOrder(Edges(pairs), answer, rel)
    ensures Tables(pairs, Elements(pairs), Elems(answer), numParents, children)
    ensures forall x :: x in numParents ==> 1 <= numParents[x] == Pending(pairs, Elems(answer), x)
    ensures numParents.Keys == Elements(pairs) - Elems(answer) && Elems(answer) <= Elements(pairs)
  {
    assert answer[..|answer|] == answer;
  }

  /** When the worklist runs dry, what is left over is what lies behind a cycle. */
  lemma LeftoverIsBehindCycles<T(!new)>(pairs: seq<(T, T)>, answer: seq<T>, rel: seq<int>, numParents: map<T, int>)
    requires NoDup(answer) && FifoOrder(Edges(pairs), answer, rel)
    requires numParents.Keys == Elements(pairs) - Elems(answer) && Elems(answer) <= Elements(pairs)
    requires forall x :: x in numParents ==> 1 <= numParents[x] == Pending(pairs, Elems(answer), x)
    ensures ParentsFirst(Edges(pairs), answer)
    ensures ParentClosed(Edges(pairs), numParents.Keys)
    ensures forall x :: x in numParents <==> x in Elements(pairs) && BehindCycle(Edges(pairs), x)
    ensures forall x :: x in answer <==> x in Elements(pairs) && !BehindCycle(Edges(pairs), x)
    ensures numParents == map[] <==> !Cyclic(Edges(pairs))
  {
    hide FifoOrder, ParentsFirst, BehindCycle, Cyclic, Pending, NoDup;
    var E := Edges(pairs);
    FifoIsParentsFirst(E, answer, rel);
    forall x | x in numParents ensures HasParentIn(E, numParents.Keys, x) {
      PendingZero(pairs, Elems(answer), x);
      var e :| e in E && e.1 == x && e.0 !in Elems(answer);
      assert e.0 in Elements(pairs);
    }
    forall x | x in numParents ensures BehindCycle(E, x) && Cyclic(E) {
      ParentClosedIsBehindCycle(E, numParents.Keys, x);
      BehindIsCyclic(E, x);
    }
    forall x | x in answer ensures !BehindCycle(E, x) && x in Elements(pairs) {
      OrderedNotBehindCycle(E, answer, x);
      assert x in Elems(answer);
    }
    if Cyclic(E) {
      var x := CyclicHasBehind(E);
      assert x in numParents;
    }
  }

  /** The state of the inner loop, with the order of siblings. */
  ghost predicate Counting<T(!new)>(pairs: seq<(T, T)>, answer: seq<T>, i: nat, rel: seq<int>,
                                    cs: seq<T>, j: nat, numParents: map<T, int>)
  {
    && Releasing(pairs, answer, i, rel, cs, j, numParents)
    && SiblingOrder(pairs, answer, rel) && ReleasedSoFar(answer, i, rel, cs, j)
  }

  lemma CountStep<T(!new)>(pairs: seq<(T, T)>, answer: seq<T>, i: nat, rel: seq<int>,
                           cs: seq<T>, j: nat, numParents: map<T, int>)
    requires Counting(pairs, answer, i, rel, cs, j, numParents) && j < |cs|
    ensures cs[j] in numParents && numParents[cs[j]] >= 1
    ensures var np := numParents[cs[j] := numParents[cs[j]] - 1];
            if np[cs[j]] == 0 then Counting(pairs, answer + [cs[j]], i, rel + [i], cs, j + 1, np)
            else Counting(pairs, answer, i, rel, cs, j + 1, np)
  {
    hide Releasing, ReleasedBy, ReleasedSoFar, LastAt, Before, ChildrenOf;
    ChildIsWaiting(pairs, answer, i, rel, cs, j, numParents);
    ReleasingStep(pairs, answer, i, rel, cs, j, numParents);
    SiblingsStep(pairs, answer, i, rel, cs, j, numParents);
  }

  lemma ReleasingParent<T(!new)>(pairs: seq<(T, T)>, answer: seq<T>, i: nat, rel: seq<int>,
                                 cs: seq<T>, j: nat, numParents: map<T, int>)
    requires Releasing(pairs, answer, i, rel, cs, j, numParents)
    ensures i < |answer| && cs == ChildrenOf(pairs, answer[i]) && |rel| == |answer|
  {
  }

  /** The inner loop: count down the children of `answer[i]` and append those that reach zero, in their order. */
  method CountDown<T(==, !new)>(cs: seq<T>, answer0: seq<T>, numParents0: map<T, int>,
                                ghost pairs: seq<(T, T)>, ghost i: nat, ghost rel0: seq<int>)
    returns (answer: seq<T>, numParents: map<T, int>, ghost rel: seq<int>)
    requires Releasing(pairs, answer0, i, rel0, cs, 0, numParents0)
    requires SiblingOrder(pairs, answer0, rel0) && ReleasedSoFar(answer0, i, rel0, cs, 0)
    ensures Releasing(pairs, answer, i, rel, cs, |cs|, numParents)
    ensures SiblingOrder(pairs, answer, rel)
    ensures |answer0| <= |answer| && answer[..|answer0|] == answer0
    ensures numParents.Keys == numParents0.Keys
  {
    hide Counting, Releasing, SiblingOrder, ReleasedSoFar;
    answer, numParents, rel := answer0, numParents0, rel0;
    StartCounting(pairs, answer, i, rel, cs, numParents);
    for j := 0 to |cs|
      invariant Counting(pairs, answer, i, rel, cs, j, numParents)
      invariant |answer0| <= |answer| && answer[..|answer0|] == answer0
      invariant numParents.Keys == numParents0.Keys
    {
      var child := cs[j];
      CountStep(pairs, answer, i, rel, cs, j, numParents);
      numParents := numParents[child := numParents[child] - 1];
      if numParents[child] == 0 {
        answer := answer + [child];
        rel := rel + [i];
      }
    }
    Counted(pairs, answer, i, rel, cs, numParents);
  }

  lemma StartCounting<T(!new)>(pairs: seq<(T, T)>, answer: seq<T>, i: nat, rel: seq<int>,
                               cs: seq<T>, numParents: map<T, int>)
    requires Releasing(pairs, answer, i, rel, cs, 0, numParents)
    requires SiblingOrder(pairs, answer, rel) && ReleasedSoFar(answer, i, rel, cs, 0)
    ensures Counting(pairs, answer, i, rel, cs, 0, numParents)
  {
    hide Releasing, ReleasedSoFar;
  }

  lemma Counted<T(!new)>(pairs: seq<(T, T)>, answer: seq<T>, i: nat, rel: seq<int>, cs: seq<T>, numParents: map<T, int>)
    requires Counting(pairs, answer, i, rel, cs, |cs|, numParents)
    ensures Releasing(pairs, answer, i, rel, cs, |cs|, numParents) && SiblingOrder(pairs, answer, rel)
  {
  }

  /**
   * `topsort` sorts if and only if the pairs hold no cycle. Either way its answer lists each element that is
   * not behind a cycle once, parents first, in worklist order; the leftover keys are the other elements, and
   * each has a parent among the leftovers.
   */
  method Topsort<T(==, !new)>(pairs: seq<(T, T)>) returns (r: SortOutcome<T>)
    ensures r.Sorted? <==> !Cyclic(Edges(pairs))
    ensures NoDup(r.answer) && ParentsFirst(Edges(pairs), r.answer)
    ensures forall x :: x in r.answer <==> x in Elements(pairs) && !BehindCycle(Edges(pairs), x)
    ensures exists rel :: FifoOrder(Edges(pairs), r.answer, rel)
    ensures exists rel :: FifoOrder(Edges(pairs), r.answer, rel) && SiblingOrder(pairs, r.answer, rel)
    ensures r.CycleError? ==>
              && (forall x :: x in r.numParents <==> x in Elements(pairs) && BehindCycle(Edges(pairs), x))
              && ParentClosed(Edges(pairs), r.numParents.Keys)
              && Tables(pairs, Elements(pairs), Elems(r.answer), r.numParents, r.children)
  {
    hide Worklist, Releasing, RemainingChildren, FifoOrder, Tables, NoDup;
    hide ParentsFirst, ParentClosed, BehindCycle, Cyclic;
    var numParents, children := BuildTables(pairs);
    var answer := WithoutParents(numParents);
    ghost var rel := seq(|answer|, _ => -1);
    WorklistStart(pairs, answer, rel, numParents, children);
    assert SiblingOrder(pairs, answer, rel);
    hide SiblingOrder, ReleasedSoFar;
    var i := 0;
    while i < |answer|
      invariant Worklist(pairs, answer, i, rel, numParents, children) && SiblingOrder(pairs, answer, rel)
      decreases numParents.Keys
    {
      var parent := answer[i];
      ghost var numParents0 := numParents;
      ReleasingStart(pairs, answer, i, rel, numParents, children);
      ReleasingStartChildren(pairs, answer, i, rel, numParents, children);
      numParents := numParents - {parent};
      ghost var cs := ChildrenOf(pairs, parent);
      assert parent !in children ==> children - {parent} == children;
      if parent in children {
        ghost var before := answer;
        WorklistReleases(pairs, answer, i, rel, numParents0, children, cs);
        answer, numParents, rel := CountDown(children[parent], answer, numParents, pairs, i, rel);
        assert answer[..i + 1] == before[..i + 1];
        children := children - {parent};
      }
      ReleasingEnd(pairs, answer, i, rel, cs, numParents, children);
      i := i + 1;
    }
    WorklistEnd(pairs, answer, i, rel, numParents, children);
    LeftoverIsBehindCycles(pairs, answer, rel, numParents);
    if numParents != map[] {
      r := CycleError(answer, numParents, children);
    } else {
      r := Sorted(answer);
    }
  }

  lemma WorklistStart<T(!new)>(pairs: seq<(T, T)>, answer: seq<T>, rel: seq<int>,
                               numParents: map<T, int>, children: map<T, seq<T>>)
    requires Tables(pairs, Elements(pairs), {}, numParents, children) && NoDup(answer)
    requires forall x :: x in answer <==> x in numParents && numParents[x] == 0
    requires rel == seq(|answer|, _ => -1)
    ensures Worklist(pairs, answer, 0, rel, numParents, children)
  {
    assert answer[..0] == [] && Elems<T>([]) == {} && answer[0..] == answer;
    forall j | 0 <= j < |answer| ensures ReleasedBy(Edges(pairs), answer, j, -1) {
      assert answer[j] in answer;
      PendingZero(pairs, {}, answer[j]);
    }
  }

  /** The number of releases behind position `j` of the worklist. */
  ghost function ReleaseDepth(rel: seq<int>, j: nat): nat
    requires j < |rel| && forall k :: 0 <= k < |rel| ==> -1 <= rel[k] < k
    decreases j
  {
    if rel[j] < 0 then 0 else ReleaseDepth(rel, rel[j]) + 1
  }

  lemma {:induction false} ReleaseDepthMonotone(rel: seq<int>, j: nat, k: nat)
    requires forall k :: 0 <= k < |rel| ==> -1 <= rel[k] < k
    requires forall j, k :: 0 <= j < k < |rel| ==> rel[j] <= rel[k]
    requires j <= k < |rel|
    ensures ReleaseDepth(rel, j) <= ReleaseDepth(rel, k)
    decreases k
  {
    if j == k || rel[j] < 0 {
    } else {
      ReleaseDepthMonotone(rel, rel[j], rel[k]);
    }
  }

  /** Worklist order is order of depth: an element comes out one level below the parent that releases it. */
  lemma {:induction false} FifoDepth<T(!new)>(E: set<(T, T)>, answer: seq<T>, rel: seq<int>, j: nat)
    requires FifoOrder(E, answer, rel) && j < |answer|
    ensures IsDepth(E, answer[j], ReleaseDepth(rel, j))
    decreases j
  {
    var x, b := answer[j], rel[j];
    assert ReleasedBy(E, answer, j, b);
    if b < 0 {
      DepthOfRoot(E, x);
    } else {
      FifoDepth(E, answer, rel, b);
      var d := ReleaseDepth(rel, b);
      forall q | (q, x) in E ensures exists k: nat :: k <= d && IsDepth(E, q, k) {
        assert (q, x).0 in answer[..b + 1];
        var i :| 0 <= i <= b && answer[i] == q;
        FifoDepth(E, answer, rel, i);
        ReleaseDepthMonotone(rel, i, b);
      }
      DepthFromParents(E, x, d, answer[b]);
    }
  }

  /**
   * Every leftover has a child, as a remark in topsort.py says, exactly when no childless element lies downstream of a
   * cycle.
   */
  lemma LeftoversHaveChildrenIff<T(!new)>(pairs: seq<(T, T)>, answer: seq<T>, rel: seq<int>, numParents: map<T, int>)
    requires NoDup(answer) && FifoOrder(Edges(pairs), answer, rel)
    requires numParents.Keys == Elements(pairs) - Elems(answer) && Elems(answer) <= Elements(pairs)
    requires forall x :: x in numParents ==> 1 <= numParents[x] == Pending(pairs, Elems(answer), x)
    ensures (forall x :: x in numParents ==> ChildrenOf(pairs, x) != [])
            <==> forall x :: BehindCycle(Edges(pairs), x) ==> exists e :: e in Edges(pairs) && e.0 == x
  {
    hide FifoOrder, Pending, NoDup, BehindCycle;
    var E := Edges(pairs);
    LeftoverIsBehindCycles(pairs, answer, rel, numParents);
    forall x ensures ChildrenOf(pairs, x) != [] <==> exists e :: e in E && e.0 == x {
      HasChild(pairs, x);
    }
    forall x | BehindCycle(E, x) ensures x in Elements(pairs) {
      BehindIsElement(E, x);
    }
  }

  lemma HasChild<T(!new)>(pairs: seq<(T, T)>, x: T)
    ensures ChildrenOf(pairs, x) != [] <==> exists e :: e in Edges(pairs) && e.0 == x
  {
    hide ChildrenOf;
    var cs := ChildrenOf(pairs, x);
    if cs != [] {
      ChildrenAreEdges(pairs, x, cs[0]);
      assert (x, cs[0]) in Edges(pairs);
    }
    if e :| e in Edges(pairs) && e.0 == x {
      ChildrenAreEdges(pairs, x, e.1);
      assert e == (x, e.1) && e.1 in cs;
    }
  }

  lemma BehindIsElement<T(!new)>(E: set<(T, T)>, x: T)
    requires BehindCycle(E, x)
    ensures x in Nodes(E)
  {
    var w :| WalkTo(E, w, x) && OnCycle(E, w[0]);
    if |w| == 1 {
      var c :| IsCycle(E, c) && x in c;
      var k :| 0 <= k < |c| && c[k] == x;
      var e := if k == |c| - 1 then (c[k], c[0]) else (c[k], c[k + 1]);
      assert e in E && e.0 == x;
    } else {
      assert (w[|w| - 2], w[|w| - 2 + 1]) in E;
    }
  }

  /** The remark in topsort.py that every leftover has a child is not so; this one only has a parent. */
  lemma LeftoverWithoutChild()
    ensures var pairs := [(1, 1), (1, 2)];
            BehindCycle(Edges(pairs), 2) && ChildrenOf(pairs, 2) == []
  {
    var pairs := [(1, 1), (1, 2)];
    var E := Edges(pairs);
    assert pairs[0] in pairs && pairs[1] in pairs;
    assert IsCycle(E, [1]);
    assert OnCycle(E, [1, 2][0]);
    assert WalkTo(E, [1, 2], 2);
  }
}
