/** `topsort` and `find_cycles` in topsort.py agree on the same adjacency. */
module CycleAgreement {
  import opened Sequences
  import opened Digraph
  import opened DependencyTables
  import opened FindCycles
  import opened Rotation
  import Topsort

  /** The `children` dictionary that `topsort` builds has the edges of the pair list. */
  lemma ChildTableEdges<T(!new)>(pairs: seq<(T, T)>, numParents: map<T, int>, children: map<T, seq<T>>)
    requires Tables(pairs, Elements(pairs), {}, numParents, children)
    ensures ChildEdges(children) == Edges(pairs)
  {
    forall e ensures e in ChildEdges(children) <==> e in Edges(pairs) {
      ChildrenAreEdges(pairs, e.0, e.1);
      assert e == (e.0, e.1);
    }
  }

  /** `x` is reached by a walk that starts on a listed cycle. */
  ghost predicate DownstreamOf<T(!new)>(E: set<(T, T)>, cycles: seq<seq<T>>, x: T) {
    exists k, w :: 0 <= k < |cycles| && WalkTo(E, w, x) && w[0] in cycles[k]
  }

  lemma WalkAlong<T>(E: set<(T, T)>, c: seq<T>, s: T, t: T) returns (w: seq<T>)
    requires IsCycle(E, c) && s in c && t in c
    ensures WalkTo(E, w, t) && w[0] == s
  {
    var i :| 0 <= i < |c| && c[i] == s;
    var r := c[i..] + c[..i];
    RotatedCycle(E, c, i);
    assert t in r by {
      var j :| 0 <= j < |c| && c[j] == t;
      assert r[if j >= i then j - i else j + |c| - i] == t;
    }
    var k :| 0 <= k < |r| && r[k] == t;
    w := r[..k + 1];
  }

  lemma JoinWalks<T>(E: set<(T, T)>, v: seq<T>, w: seq<T>)
    requires IsWalk(E, v) && IsWalk(E, w) && Last(v) == w[0]
    ensures IsWalk(E, v + w[1..]) && (v + w[1..])[0] == v[0] && Last(v + w[1..]) == Last(w)
  {
    if |w| > 1 {
      assert (w[0], w[0 + 1]) in E;
      WalkConcat(E, v, w[1..]);
    } else {
      assert v + w[1..] == v;
    }
  }

  lemma RotationShares<T>(a: seq<T>, b: seq<T>)
    requires IsRotation(a, b) && b != []
    ensures b[0] in a
  {
  }

  /** Being behind some cycle is being downstream of one of the cycles that `find_cycles` lists. */
  lemma BehindIsDownstream<T(!new)>(E: set<(T, T)>, cycles: seq<seq<T>>, x: T)
    requires ListsSimpleCycles(E, cycles)
    ensures BehindCycle(E, x) <==> DownstreamOf(E, cycles, x)
  {
    hide IsRotation, NoDup;
    if BehindCycle(E, x) {
      var w :| WalkTo(E, w, x) && OnCycle(E, w[0]);
      var c :| IsCycle(E, c) && w[0] in c;
      var s := CyclicHasSimpleCycle(E, c);
      assert Represented(cycles, s);
      var k :| 0 <= k < |cycles| && IsRotation(cycles[k], s);
      SimpleCycleNonempty(E, s);
      RotationShares(cycles[k], s);
      var v := WalkAlong(E, c, s[0], w[0]);
      JoinWalks(E, v, w);
      assert WalkTo(E, v + w[1..], x) && (v + w[1..])[0] in cycles[k];
    }
    if DownstreamOf(E, cycles, x) {
      var k, w :| 0 <= k < |cycles| && WalkTo(E, w, x) && w[0] in cycles[k];
      assert IsSimpleCycle(E, cycles[k]);
      assert OnCycle(E, w[0]);
    }
  }

  /**
   * For the results of both on the same graph: `topsort` succeeds exactly when `find_cycles` yields nothing, and
   * the keys it leaves over are the elements downstream of the cycles that `find_cycles` yields.
   */
  lemma TopsortAgreesWithFindCycles<T(!new)>(pairs: seq<(T, T)>, numParents: map<T, int>, children: map<T, seq<T>>,
                                             r: Topsort.SortOutcome<T>, cycles: seq<seq<T>>)
    requires Tables(pairs, Elements(pairs), {}, numParents, children)
    requires r.Sorted? <==> !Cyclic(Edges(pairs))
    requires r.CycleError? ==>
               forall x :: x in r.numParents <==> x in Elements(pairs) && BehindCycle(Edges(pairs), x)
    requires ListsSimpleCycles(ChildEdges(children), cycles)
    ensures r.Sorted? <==> cycles == []
    ensures r.CycleError? ==>
              forall x :: x in r.numParents <==> x in Elements(pairs) && DownstreamOf(Edges(pairs), cycles, x)
  {
    hide ListsSimpleCycles, Cyclic, BehindCycle, DownstreamOf;
    ChildTableEdges(pairs, numParents, children);
    NothingListed(Edges(pairs), cycles);
    forall x ensures BehindCycle(Edges(pairs), x) <==> DownstreamOf(Edges(pairs), cycles, x) {
      BehindIsDownstream(Edges(pairs), cycles, x);
    }
  }
}
