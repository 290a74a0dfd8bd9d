/** The worklist of `topsort` emits the levels of `topsort_levels` one after the other. */
module TopsortBlocks {
  import opened Sequences
  import opened Digraph
  import opened DependencyTables
  import opened Topsort
  import opened TopsortLevels

  /** Where level `k` starts once the levels are laid end to end. */
  ghost function Offset<T>(levels: seq<seq<T>>, k: nat): nat
    requires k <= |levels|
  {
    if k == 0 then 0 else Offset(levels, k - 1) + |levels[k - 1]|
  }

  /** The first position from `from` on whose release depth is at least `k`. */
  ghost function Cut(rel: seq<int>, k: nat, from: nat): (c: nat)
    requires forall j :: 0 <= j < |rel| ==> -1 <= rel[j] < j
    requires from <= |rel|
    ensures from <= c <= |rel|
    ensures forall j :: from <= j < c ==> ReleaseDepth(rel, j) < k
    ensures c < |rel| ==> ReleaseDepth(rel, c) >= k
    decreases |rel| - from
  {
    if from == |rel| || ReleaseDepth(rel, from) >= k then from else Cut(rel, k, from + 1)
  }

  lemma CutSplits(rel: seq<int>, k: nat, j: nat)
    requires forall j :: 0 <= j < |rel| ==> -1 <= rel[j] < j
    requires forall j, k :: 0 <= j < k < |rel| ==> rel[j] <= rel[k]
    requires j < |rel|
    ensures j < Cut(rel, k, 0) <==> ReleaseDepth(rel, j) < k
  {
    if j >= Cut(rel, k, 0) {
      ReleaseDepthMonotone(rel, Cut(rel, k, 0), j);
    }
  }

  /** What `Topsort` and `TopsortLevels` promise about their results on the same graph. */
  ghost predicate SameGraph<T(!new)>(E: set<(T, T)>, all: set<T>, answer: seq<T>, rel: seq<int>, levels: seq<seq<T>>) {
    && NoDup(answer) && FifoOrder(E, answer, rel)
    && AreLevels(E, all, levels)
    && (forall x :: x in answer <==> x in all && !BehindCycle(E, x))
    && (forall x :: InSomeLevel(levels, x) <==> x in all && !BehindCycle(E, x))
  }

  lemma DepthBelow<T(!new)>(E: set<(T, T)>, all: set<T>, answer: seq<T>, rel: seq<int>, levels: seq<seq<T>>, j: nat)
    requires SameGraph(E, all, answer, rel, levels) && j < |answer|
    ensures ReleaseDepth(rel, j) < |levels|
  {
    FifoDepth(E, answer, rel, j);
    assert answer[j] in answer;
    assert InSomeLevel(levels, answer[j]);
    var k :| 0 <= k < |levels| && answer[j] in levels[k];
    assert IsLevel(E, all, levels[k], k);
    DepthUnique(E, answer[j], k, ReleaseDepth(rel, j));
  }

  /** Position `j` lies in the stretch of depth `k` exactly when its element has depth `k`. */
  lemma InStretch<T(!new)>(E: set<(T, T)>, answer: seq<T>, rel: seq<int>, k: nat, j: nat)
    requires FifoOrder(E, answer, rel) && j < |answer|
    ensures Cut(rel, k, 0) <= j < Cut(rel, k + 1, 0) <==> IsDepth(E, answer[j], k)
  {
    CutSplits(rel, k, j);
    CutSplits(rel, k + 1, j);
    FifoDepth(E, answer, rel, j);
    if IsDepth(E, answer[j], k) {
      DepthUnique(E, answer[j], k, ReleaseDepth(rel, j));
    }
  }

  lemma CutMonotone(rel: seq<int>, k: nat)
    requires forall j :: 0 <= j < |rel| ==> -1 <= rel[j] < j
    requires forall j, k :: 0 <= j < k < |rel| ==> rel[j] <= rel[k]
    ensures Cut(rel, k, 0) <= Cut(rel, k + 1, 0)
  {
    var hi := Cut(rel, k + 1, 0);
    if hi < |rel| {
      CutSplits(rel, k, hi);
    }
  }

  /** The stretch of the worklist with release depth `k` is a permutation of level `k`. */
  lemma StretchIsLevel<T(!new)>(E: set<(T, T)>, all: set<T>, answer: seq<T>, rel: seq<int>, levels: seq<seq<T>>, k: nat)
    requires SameGraph(E, all, answer, rel, levels) && k < |levels|
    ensures Cut(rel, k, 0) <= Cut(rel, k + 1, 0)
    ensures multiset(answer[Cut(rel, k, 0)..Cut(rel, k + 1, 0)]) == multiset(levels[k])
  {
    hide IsDepth, BehindCycle, ReleasedBy;
    CutMonotone(rel, k);
    var lo, hi := Cut(rel, k, 0), Cut(rel, k + 1, 0);
    var stretch := answer[lo..hi];
    assert IsLevel(E, all, levels[k], k);
    forall x | x in stretch ensures x in levels[k] {
      var j :| lo <= j < hi && answer[j] == x;
      InStretch(E, answer, rel, k, j);
      assert x in answer;
    }
    forall x | x in levels[k] ensures x in stretch {
      assert InSomeLevel(levels, x);
      assert x in answer;
      var j :| 0 <= j < |answer| && answer[j] == x;
      InStretch(E, answer, rel, k, j);
      assert stretch[j - lo] == x;
    }
    SameElemsPermutation(stretch, levels[k]);
  }

  lemma {:induction false} CutIsOffset<T(!new)>(E: set<(T, T)>, all: set<T>, answer: seq<T>, rel: seq<int>,
                                                levels: seq<seq<T>>, k: nat)
    requires SameGraph(E, all, answer, rel, levels) && k <= |levels|
    ensures Cut(rel, k, 0) == Offset(levels, k)
  {
    hide ReleasedBy, AreLevels, BehindCycle, InSomeLevel, NoDup;
    if k == 0 {
    } else {
      CutIsOffset(E, all, answer, rel, levels, k - 1);
      StretchIsLevel(E, all, answer, rel, levels, k - 1);
      var stretch := answer[Cut(rel, k - 1, 0)..Cut(rel, k, 0)];
      assert |stretch| == |multiset(stretch)| == |multiset(levels[k - 1])| == |levels[k - 1]|;
    }
  }

  ghost predicate BlockIsLevel<T>(answer: seq<T>, levels: seq<seq<T>>, k: nat)
    requires k < |levels|
  {
    && Offset(levels, k) <= Offset(levels, k + 1) <= |answer|
    && multiset(answer[Offset(levels, k)..Offset(levels, k + 1)]) == multiset(levels[k])
  }

  /**
   * Whatever order the dictionaries list their keys in, and with or without cycles, the answer of `topsort` is
   * the levels of `topsort_levels` laid end to end, each permuted within itself.
   */
  lemma AnswerIsLevelsInTurn<T(!new)>(E: set<(T, T)>, all: set<T>, answer: seq<T>, rel: seq<int>, levels: seq<seq<T>>)
    requires SameGraph(E, all, answer, rel, levels)
    ensures |answer| == Offset(levels, |levels|)
    ensures forall k :: 0 <= k < |levels| ==> BlockIsLevel(answer, levels, k)
  {
    hide ReleasedBy, AreLevels, BehindCycle, InSomeLevel;
    forall k | 0 <= k < |levels| ensures BlockIsLevel(answer, levels, k) {
      CutIsOffset(E, all, answer, rel, levels, k);
      CutIsOffset(E, all, answer, rel, levels, k + 1);
      StretchIsLevel(E, all, answer, rel, levels, k);
    }
    CutIsOffset(E, all, answer, rel, levels, |levels|);
    var n := Cut(rel, |levels|, 0);
    if n < |answer| {
      DepthBelow(E, all, answer, rel, levels, n);
    }
  }

  /** The same from the promises of the two methods alone: whatever `Topsort` and `TopsortLevels` return on `pairs`. */
  lemma TopsortEmitsLevels<T(!new)>(pairs: seq<(T, T)>, answer: seq<T>, levels: seq<seq<T>>)
    requires NoDup(answer) && exists rel :: FifoOrder(Edges(pairs), answer, rel)
    requires forall x :: x in answer <==> x in Elements(pairs) && !BehindCycle(Edges(pairs), x)
    requires AreLevels(Edges(pairs), Elements(pairs), levels)
    requires forall x :: InSomeLevel(levels, x) <==> x in Elements(pairs) && !BehindCycle(Edges(pairs), x)
    ensures |answer| == Offset(levels, |levels|)
    ensures forall k :: 0 <= k < |levels| ==> BlockIsLevel(answer, levels, k)
  {
    hide FifoOrder, AreLevels, BehindCycle, InSomeLevel;
    var rel :| FifoOrder(Edges(pairs), answer, rel);
    AnswerIsLevelsInTurn(Edges(pairs), Elements(pairs), answer, rel, levels);
  }
}
