/** The level-by-level peel of `topsort_levels` and `topsort_levels_core` in topsort.py. */
module TopsortLevels {
  import opened Sequences
  import opened Digraph
  import opened DependencyTables

  /** The levels generated before the generator stopped, or before it raised CycleError with its two arguments. */
  datatype LevelsOutcome<T> =
    | Finished(levels: seq<seq<T>>)
    | CycleError(levels: seq<seq<T>>, numParents: map<T, int>, children: map<T, seq<T>>)

  /** Level `k` lists each element of `all` of depth `k` once. */
  ghost predicate AreLevels<T(!new)>(E: set<(T, T)>, all: set<T>, levels: seq<seq<T>>) {
    forall k :: 0 <= k < |levels| ==> IsLevel(E, all, levels[k], k)
  }

  ghost predicate IsLevel<T(!new)>(E: set<(T, T)>, all: set<T>, level: seq<T>, k: nat) {
    level != [] && NoDup(level) && forall x :: x in level <==> x in all && IsDepth(E, x, k)
  }

  ghost predicate InSomeLevel<T>(levels: seq<seq<T>>, x: T) {
    exists k :: 0 <= k < |levels| && x in levels[k]
  }

  ghost predicate HasWalk<T(!new)>(E: set<(T, T)>, x: T, n: nat) {
    exists w :: WalkTo(E, w, x) && |w| == n
  }

  /** State between two levels. */
  ghost predicate Peeling<T(!new)>(pairs: seq<(T, T)>, all: set<T>, done: set<T>, levels: seq<seq<T>>,
                                   numParents: map<T, int>, children: map<T, seq<T>>)
  {
    && Tables(pairs, all, done, numParents, children)
    && AreLevels(Edges(pairs), all, levels)
    && (forall x :: x in done <==> InSomeLevel(levels, x))
    && (forall x :: x in all && x !in done ==> HasWalk(Edges(pairs), x, |levels| + 1))
  }

  /** State inside a level: `done` includes the level's elements removed so far. */
  ghost predicate CountingDown<T(!new)>(pairs: seq<(T, T)>, all: set<T>, done: set<T>, parent: T,
                                        j: nat, numParents: map<T, int>)
  {
    && parent !in done
    && j <= |ChildrenOf(pairs, parent)|
    && numParents.Keys == all - done - {parent}
    && forall x :: x in numParents ==>
         numParents[x] == Pending(pairs, done, x) - multiset(ChildrenOf(pairs, parent)[..j])[x]
  }

  method CountDown<T(==, !new)>(numParents0: map<T, int>, cs: seq<T>,
                                ghost pairs: seq<(T, T)>, ghost all: set<T>, ghost done: set<T>, ghost parent: T)
    returns (numParents: map<T, int>)
    requires CountingDown(pairs, all, done, parent, 0, numParents0)
    requires cs == ChildrenOf(pairs, parent)
    requires forall c :: c in cs ==> c in all && c !in done && c != parent
    ensures CountingDown(pairs, all, done, parent, |cs|, numParents)
  {
    numParents := numParents0;
    for j := 0 to |cs|
      invariant CountingDown(pairs, all, done, parent, j, numParents)
    {
      assert cs[j] in cs && cs[..j + 1] == cs[..j] + [cs[j]];
      numParents := numParents[cs[j] := numParents[cs[j]] - 1];
    }
  }

  lemma CountDownDone<T(!new)>(pairs: seq<(T, T)>, all: set<T>, done: set<T>, parent: T,
                               numParents: map<T, int>, children: map<T, seq<T>>)
    requires CountingDown(pairs, all, done, parent, |ChildrenOf(pairs, parent)|, numParents)
    requires Elements(pairs) <= all
    requires forall p :: p in children ==> p !in done && p != parent && children[p] == ChildrenOf(pairs, p)
    requires forall p :: p !in done && p != parent && p !in children ==> ChildrenOf(pairs, p) == []
    ensures Tables(pairs, all, done + {parent}, numParents, children)
  {
    var cs := ChildrenOf(pairs, parent);
    assert cs[..|cs|] == cs;
    forall x | x in numParents ensures numParents[x] == Pending(pairs, done + {parent}, x) {
      PendingStep(pairs, done, parent, x);
    }
  }

  /** Removing one element whose parents are all gone keeps the dictionaries right. */
  method RemoveElement<T(==, !new)>(numParents0: map<T, int>, children0: map<T, seq<T>>, parent: T,
                                    ghost pairs: seq<(T, T)>, ghost all: set<T>, ghost done: set<T>)
    returns (numParents: map<T, int>, children: map<T, seq<T>>)
    requires Tables(pairs, all, done, numParents0, children0)
    requires parent in all && parent !in done
    requires forall e :: e in Edges(pairs) && (e.1 in done || e.1 == parent) ==> e.0 != parent
    ensures Tables(pairs, all, done + {parent}, numParents, children)
  {
    ghost var cs := ChildrenOf(pairs, parent);
    forall c | c in cs ensures c in all && c !in done && c != parent {
      ChildrenAreEdges(pairs, parent, c);
      assert (parent, c) in Edges(pairs) && (parent, c).1 in Elements(pairs);
    }
    numParents, children := numParents0 - {parent}, children0;
    assert cs[..0] == [];
    if parent in children {
      numParents := CountDown(numParents, children[parent], pairs, all, done, parent);
      children := children - {parent};
    }
    CountDownDone(pairs, all, done, parent, numParents, children);
  }

  /** The zero-count elements are exactly the next level. */
  lemma NextLevel<T(!new)>(pairs: seq<(T, T)>, all: set<T>, done: set<T>, levels: seq<seq<T>>,
                           numParents: map<T, int>, children: map<T, seq<T>>, level: seq<T>)
    requires Peeling(pairs, all, done, levels, numParents, children)
    requires forall x :: x in level <==> x in numParents && numParents[x] == 0
    ensures forall x :: x in level <==> x in all && IsDepth(Edges(pairs), x, |levels|)
    ensures forall x :: x in level ==> x in all && x !in done
    ensures forall e :: e in Edges(pairs) && (e.1 in done || e.1 in level) ==> e.0 in done
    ensures forall x :: x in all && x !in done && x !in level ==> HasWalk(Edges(pairs), x, |levels| + 2)
  {
    var E, n := Edges(pairs), |levels|;
    forall e | e in E && (e.1 in done || e.1 in level) ensures e.0 in done {
      if e.1 in level {
        PendingZero(pairs, done, e.1);
      } else {
        DoneIsParentClosed(pairs, all, done, levels, numParents, children, e);
      }
    }
    forall x | x in level ensures IsDepth(E, x, n) {
      ZeroCountDepth(pairs, all, done, levels, numParents, children, x);
    }
    forall x | x in all && IsDepth(E, x, n) ensures x in level {
      if x !in done && x !in level {
        WaitingWalk(pairs, all, done, levels, numParents, children, x);
      }
    }
    forall x | x in all && x !in done && x !in level ensures HasWalk(E, x, n + 2) {
      WaitingWalk(pairs, all, done, levels, numParents, children, x);
    }
  }

  lemma WalkExtends<T(!new)>(E: set<(T, T)>, e: (T, T), n: nat)
    requires e in E
    ensures HasWalk(E, e.0, n) ==> HasWalk(E, e.1, n + 1)
  {
    if HasWalk(E, e.0, n) {
      var w :| WalkTo(E, w, e.0) && |w| == n;
      assert WalkTo(E, w + [e.1], e.1);
    }
  }

  lemma DoneIsParentClosed<T(!new)>(pairs: seq<(T, T)>, all: set<T>, done: set<T>, levels: seq<seq<T>>,
                                    numParents: map<T, int>, children: map<T, seq<T>>, e: (T, T))
    requires Peeling(pairs, all, done, levels, numParents, children)
    requires e in Edges(pairs) && e.1 in done
    ensures e.0 in done
  {
    var E := Edges(pairs);
    var k :| 0 <= k < |levels| && e.1 in levels[k];
    assert IsLevel(E, all, levels[k], k);
    assert e.0 in Elements(pairs);
    WalkExtends(E, e, |levels| + 1);
    assert !HasWalk(E, e.1, |levels| + 2);
  }

  lemma ZeroCountDepth<T(!new)>(pairs: seq<(T, T)>, all: set<T>, done: set<T>, levels: seq<seq<T>>,
                                numParents: map<T, int>, children: map<T, seq<T>>, x: T)
    requires Peeling(pairs, all, done, levels, numParents, children)
    requires x in numParents && numParents[x] == 0
    ensures IsDepth(Edges(pairs), x, |levels|)
  {
    var E, n := Edges(pairs), |levels|;
    PendingZero(pairs, done, x);
    hide Pending, Edges, ChildrenOf;
    forall w | WalkTo(E, w, x) ensures |w| <= n + 1 {
      DoneWalk(E, all, done, levels, x, w);
    }
  }

  /** A walk to an element whose parents are all in the levels is no longer than their number plus one. */
  lemma DoneWalk<T(!new)>(E: set<(T, T)>, all: set<T>, done: set<T>, levels: seq<seq<T>>, x: T, w: seq<T>)
    requires AreLevels(E, all, levels) && forall y :: y in done ==> InSomeLevel(levels, y)
    requires (forall e :: e in E && e.1 == x ==> e.0 in done) && WalkTo(E, w, x)
    ensures |w| <= |levels| + 1
  {
    if |w| > 1 {
      var e := (w[|w| - 2], w[|w| - 2 + 1]);
      assert e in E && e.0 in done;
      var k :| 0 <= k < |levels| && e.0 in levels[k];
      assert IsLevel(E, all, levels[k], k);
      assert WalkTo(E, w[..|w| - 1], e.0);
    }
  }

  lemma WaitingWalk<T(!new)>(pairs: seq<(T, T)>, all: set<T>, done: set<T>, levels: seq<seq<T>>,
                             numParents: map<T, int>, children: map<T, seq<T>>, x: T)
    requires Peeling(pairs, all, done, levels, numParents, children)
    requires x in numParents && numParents[x] != 0
    ensures HasWalk(Edges(pairs), x, |levels| + 2)
  {
    var E, n := Edges(pairs), |levels|;
    PendingZero(pairs, done, x);
    var e :| e in E && e.1 == x && e.0 !in done;
    assert e.0 in Elements(pairs);
    WalkExtends(E, e, n + 1);
  }

  /**
   * `topsort_levels_core`: level `k` is the set of elements whose longest predecessor chain has `k` edges; the
   * generator raises exactly when there is a cycle, having produced the levels of every element not behind one.
   */
  method LevelsCore<T(==, !new)>(numParents0: map<T, int>, children0: map<T, seq<T>>, ghost pairs: seq<(T, T)>)
    returns (r: LevelsOutcome<T>)
    requires Tables(pairs, numParents0.Keys, {}, numParents0, children0)
    ensures r.Finished? <==> !Cyclic(Edges(pairs))
    ensures AreLevels(Edges(pairs), numParents0.Keys, r.levels)
    ensures forall x :: InSomeLevel(r.levels, x) <==> x in numParents0 && !BehindCycle(Edges(pairs), x)
    ensures r.CycleError? ==>
              && (forall x :: x in r.numParents <==> x in numParents0 && BehindCycle(Edges(pairs), x))
              && ParentClosed(Edges(pairs), r.numParents.Keys)
              && Tables(pairs, numParents0.Keys, numParents0.Keys - r.numParents.Keys, r.numParents, r.children)
  {
    hide AreLevels, Tables, IsDepth, InSomeLevel, ParentClosed, BehindCycle, Cyclic, NoDup;
    var numParents, children, levels := numParents0, children0, [];
    ghost var all, done := numParents.Keys, {};
    PeelingStart(pairs, all, numParents, children);
    var level := WithoutParents(numParents);
    while level != []
      invariant Peeling(pairs, all, done, levels, numParents, children)
      invariant NoDup(level) && forall x :: x in level <==> x in numParents && numParents[x] == 0
      decreases numParents.Keys
    {
      ghost var before, levels0, np0, ch0 := done, levels, numParents, children;
      NextLevel(pairs, all, done, levels, numParents, children, level);
      levels := levels + [level];
      numParents, children := RemoveLevel(numParents, children, level, pairs, all, done);
      done := done + Elems(level);
      PeelingStep(pairs, all, before, levels0, np0, ch0, level, numParents, children);
      assert level[0] in level && level[0] in np0 && level[0] !in numParents;
      level := WithoutParents(numParents);
    }
    PeelingEnd(pairs, all, done, levels, numParents, children);
    if numParents != map[] {
      r := CycleError(levels, numParents, children);
    } else {
      r := Finished(levels);
    }
  }

  /** `topsort_levels`: an element's level is the length of its longest predecessor chain. */
  method TopsortLevels<T(==, !new)>(pairs: seq<(T, T)>) returns (r: LevelsOutcome<T>)
    ensures r.Finished? <==> !Cyclic(Edges(pairs))
    ensures AreLevels(Edges(pairs), Elements(pairs), r.levels)
    ensures forall x :: InSomeLevel(r.levels, x) <==> x in Elements(pairs) && !BehindCycle(Edges(pairs), x)
    ensures r.CycleError? ==>
              && (forall x :: x in r.numParents <==> x in Elements(pairs) && BehindCycle(Edges(pairs), x))
              && ParentClosed(Edges(pairs), r.numParents.Keys)
  {
    var numParents, children := BuildTables(pairs);
    assert numParents.Keys == Elements(pairs);
    r := LevelsCore(numParents, children, pairs);
  }

  /** The loop over one level's elements. */
  method RemoveLevel<T(==, !new)>(numParents0: map<T, int>, children0: map<T, seq<T>>, level: seq<T>,
                                  ghost pairs: seq<(T, T)>, ghost all: set<T>, ghost done: set<T>)
    returns (numParents: map<T, int>, children: map<T, seq<T>>)
    requires Tables(pairs, all, done, numParents0, children0) && NoDup(level)
    requires forall x :: x in level ==> x in all && x !in done
    requires forall e :: e in Edges(pairs) && (e.1 in done || e.1 in level) ==> e.0 in done
    ensures Tables(pairs, all, done + Elems(level), numParents, children)
    ensures numParents.Keys == numParents0.Keys - Elems(level)
  {
    hide Tables;
    numParents, children := numParents0, children0;
    assert done + Elems(level[..0]) == done;
    for i := 0 to |level|
      invariant Tables(pairs, all, done + Elems(level[..i]), numParents, children)
    {
      assert level[..i + 1] == level[..i] + [level[i]];
      assert done + Elems(level[..i + 1]) == done + Elems(level[..i]) + {level[i]};
      assert forall x :: x in level[..i] ==> x in level;
      numParents, children := RemoveElement(numParents, children, level[i], pairs, all, done + Elems(level[..i]));
    }
    assert level[..|level|] == level;
    assert numParents.Keys == numParents0.Keys - Elems(level) by {
      KeysOfTables(pairs, all, done, numParents0, children0);
      KeysOfTables(pairs, all, done + Elems(level), numParents, children);
    }
  }

  lemma KeysOfTables<T(!new)>(pairs: seq<(T, T)>, all: set<T>, done: set<T>,
                              numParents: map<T, int>, children: map<T, seq<T>>)
    requires Tables(pairs, all, done, numParents, children)
    ensures numParents.Keys == all - done
  {
  }

  lemma PeelingStart<T(!new)>(pairs: seq<(T, T)>, all: set<T>, numParents: map<T, int>, children: map<T, seq<T>>)
    requires Tables(pairs, all, {}, numParents, children)
    ensures Peeling(pairs, all, {}, [], numParents, children)
  {
    forall x | x in all ensures HasWalk(Edges(pairs), x, 1) {
      assert WalkTo(Edges(pairs), [x], x);
    }
  }

  lemma PeelingStep<T(!new)>(pairs: seq<(T, T)>, all: set<T>, done: set<T>, levels: seq<seq<T>>,
                             numParents: map<T, int>, children: map<T, seq<T>>, level: seq<T>,
                             numParents': map<T, int>, children': map<T, seq<T>>)
    requires Peeling(pairs, all, done, levels, numParents, children)
    requires level != [] && NoDup(level)
    requires forall x :: x in level <==> x in all && IsDepth(Edges(pairs), x, |levels|)
    requires forall x :: x in all && x !in done && x !in level ==> HasWalk(Edges(pairs), x, |levels| + 2)
    requires Tables(pairs, all, done + Elems(level), numParents', children')
    ensures Peeling(pairs, all, done + Elems(level), levels + [level], numParents', children')
  {
    hide Tables, IsDepth, HasWalk, NoDup;
    var more := levels + [level];
    forall k | 0 <= k < |more| ensures IsLevel(Edges(pairs), all, more[k], k) {
    }
    forall x ensures x in done + Elems(level) <==> InSomeLevel(more, x) {
      if x in level {
        assert x in more[|levels|];
      } else if x in done {
        var k :| 0 <= k < |levels| && x in levels[k];
        assert x in more[k];
      }
    }
  }

  lemma PeelingEnd<T(!new)>(pairs: seq<(T, T)>, all: set<T>, done: set<T>, levels: seq<seq<T>>,
                            numParents: map<T, int>, children: map<T, seq<T>>)
    requires Peeling(pairs, all, done, levels, numParents, children)
    requires forall x :: x in numParents ==> numParents[x] != 0
    ensures AreLevels(Edges(pairs), all, levels)
    ensures forall x :: InSomeLevel(levels, x) <==> x in all && !BehindCycle(Edges(pairs), x)
    ensures forall x :: x in numParents <==> x in all && BehindCycle(Edges(pairs), x)
    ensures ParentClosed(Edges(pairs), numParents.Keys)
    ensures Tables(pairs, all, all - numParents.Keys, numParents, children)
    ensures numParents == map[] <==> !Cyclic(Edges(pairs))
  {
    hide BehindCycle, Cyclic, IsDepth, HasWalk, NoDup;
    var E := Edges(pairs);
    forall x | x in done ensures x in all && !BehindCycle(E, x) {
      var k :| 0 <= k < |levels| && x in levels[k];
      assert IsLevel(E, all, levels[k], k);
      DepthNotBehindCycle(E, x, k);
    }
    forall x | x in numParents ensures HasParentIn(E, numParents.Keys, x) {
      PendingZero(pairs, done, x);
      var e :| e in E && e.1 == x && e.0 !in done;
      assert e.0 in Elements(pairs);
    }
    forall x | x in numParents ensures BehindCycle(E, x) && Cyclic(E) {
      ParentClosedIsBehindCycle(E, numParents.Keys, x);
      BehindIsCyclic(E, x);
    }
    assert all - numParents.Keys == done;
    if Cyclic(E) {
      var x := CyclicHasBehind(E);
      assert x in Elements(pairs);
    }
  }

  lemma DepthNotBehindCycle<T(!new)>(E: set<(T, T)>, x: T, k: nat)
    requires IsDepth(E, x, k)
    ensures !BehindCycle(E, x)
  {
    if BehindCycle(E, x) {
      var w := LongWalkBehindCycle(E, x, k + 2);
    }
  }

  /** Behind a cycle, walks of any length end at `x`. */
  lemma LongWalkBehindCycle<T(!new)>(E: set<(T, T)>, x: T, n: nat) returns (w: seq<T>)
    requires BehindCycle(E, x)
    ensures WalkTo(E, w, x) && |w| >= n
  {
    var v :| WalkTo(E, v, x) && OnCycle(E, v[0]);
    var c :| IsCycle(E, c) && v[0] in c;
    var k :| 0 <= k < |c| && c[k] == v[0];
    var r := c[k..] + c[..k];
    RotatedCycle(E, c, k);
    w := v;
    while |w| < n
      invariant WalkTo(E, w, x) && w[0] == v[0]
      decreases n - |w|
    {
      WalkConcat(E, r, w);
      w := r + w;
    }
  }
}
