/** Walks, cycles and longest-chain depth in a finite directed graph, given as a set of edges. */
module Digraph {
  import opened Sequences

  ghost function Nodes<T>(E: set<(T, T)>): set<T> {
    (set e | e in E :: e.0) + (set e | e in E :: e.1)
  }

  ghost predicate IsWalk<T>(E: set<(T, T)>, w: seq<T>) {
    |w| > 0 && forall i :: 0 <= i < |w| - 1 ==> (w[i], w[i + 1]) in E
  }

  ghost predicate WalkTo<T>(E: set<(T, T)>, w: seq<T>, x: T) {
    IsWalk(E, w) && Last(w) == x
  }

  /** The last element is a parent of the first one. */
  ghost predicate IsCycle<T>(E: set<(T, T)>, c: seq<T>) {
    IsWalk(E, c) && (Last(c), c[0]) in E
  }

  ghost predicate IsSimpleCycle<T>(E: set<(T, T)>, c: seq<T>) {
    IsCycle(E, c) && NoDup(c)
  }

  ghost predicate Cyclic<T(!new)>(E: set<(T, T)>) {
    exists c :: IsCycle(E, c)
  }

  ghost predicate OnCycle<T(!new)>(E: set<(T, T)>, x: T) {
    exists c :: IsCycle(E, c) && x in c
  }

  /** `x` lies on a cycle or downstream of one. */
  ghost predicate BehindCycle<T(!new)>(E: set<(T, T)>, x: T) {
    exists w :: WalkTo(E, w, x) && OnCycle(E, w[0])
  }

  /** The longest chain of predecessors ending at `x` has exactly `d` edges. */
  ghost predicate IsDepth<T(!new)>(E: set<(T, T)>, x: T, d: nat) {
    && (exists w :: WalkTo(E, w, x) && |w| == d + 1)
    && (forall w :: WalkTo(E, w, x) ==> |w| <= d + 1)
  }

  lemma DepthUnique<T(!new)>(E: set<(T, T)>, x: T, d: nat, d': nat)
    requires IsDepth(E, x, d) && IsDepth(E, x, d')
    ensures d == d'
  {
    var w :| WalkTo(E, w, x) && |w| == d + 1;
    var w' :| WalkTo(E, w', x) && |w'| == d' + 1;
  }

  lemma WalkConcat<T>(E: set<(T, T)>, v: seq<T>, w: seq<T>)
    requires IsWalk(E, v) && IsWalk(E, w) && (Last(v), w[0]) in E
    ensures IsWalk(E, v + w)
  {
  }

  /** A cycle may be entered at any of its elements. */
  lemma RotatedCycle<T>(E: set<(T, T)>, c: seq<T>, k: nat)
    requires IsCycle(E, c) && k < |c|
    ensures IsCycle(E, c[k..] + c[..k])
  {
    if k > 0 {
      assert Last(c[k..]) == Last(c);
      WalkConcat(E, c[k..], c[..k]);
      assert (c[k - 1], c[k]) in E;
    } else {
      assert c[k..] + c[..k] == c;
    }
  }

  /** A walk that meets the same element twice contains a cycle. */
  lemma RepeatIsCycle<T>(E: set<(T, T)>, w: seq<T>, i: nat, j: nat)
    requires IsWalk(E, w) && i < j < |w| && w[i] == w[j]
    ensures IsCycle(E, w[i..j]) && w[i] in w[i..j]
  {
    assert w[i..j][0] == w[i];
    assert Last(w[i..j]) == w[j - 1];
  }

  ghost predicate HasParentIn<T>(E: set<(T, T)>, S: set<T>, y: T) {
    exists e :: e in E && e.0 in S && e.1 == y
  }

  ghost predicate ParentClosed<T>(E: set<(T, T)>, S: set<T>) {
    forall y :: y in S ==> HasParentIn(E, S, y)
  }

  /** When every element of `S` has a parent in `S`, walks inside `S` reach back as far as one likes. */
  lemma {:induction false} WalkBack<T>(E: set<(T, T)>, S: set<T>, x: T, n: nat) returns (w: seq<T>)
    requires x in S && ParentClosed(E, S)
    ensures WalkTo(E, w, x) && |w| == n + 1 && forall y :: y in w ==> y in S
    decreases n
  {
    if n == 0 {
      w := [x];
    } else {
      assert HasParentIn(E, S, x);
      var e :| e in E && e.0 in S && e.1 == x;
      var p := e.0;
      var v := WalkBack(E, S, p, n - 1);
      w := v + [x];
    }
  }

  /** A finite set closed under "has a parent in the set" lies behind cycles. */
  lemma ParentClosedIsBehindCycle<T(!new)>(E: set<(T, T)>, S: set<T>, x: T)
    requires x in S && ParentClosed(E, S)
    ensures BehindCycle(E, x)
  {
    var w := WalkBack(E, S, x, |S|);
    var i, j := Repetition(w, S);
    RepeatIsCycle(E, w, i, j);
    assert OnCycle(E, w[i]);
    assert w[i..][0] == w[i] && Last(w[i..]) == x;
    assert WalkTo(E, w[i..], x);
  }

  /** Every parent of an element of `s` stands before it in `s`. */
  ghost predicate ParentsFirst<T>(E: set<(T, T)>, s: seq<T>) {
    forall e, j :: e in E && 0 <= j < |s| && s[j] == e.1 ==> e.0 in s[..j]
  }

  lemma {:induction false} WalkIntoOrdered<T>(E: set<(T, T)>, s: seq<T>, w: seq<T>, j: nat) returns (i: nat)
    requires ParentsFirst(E, s) && IsWalk(E, w) && j < |s| && s[j] == Last(w)
    ensures i < |s| && s[i] == w[0] && i + |w| - 1 <= j
    decreases |w|
  {
    if |w| == 1 {
      i := j;
    } else {
      var e := (w[|w| - 2], w[|w| - 1]);
      assert e in E;
      assert e.0 in s[..j];
      var k :| 0 <= k < j && s[k] == e.0;
      i := WalkIntoOrdered(E, s, w[..|w| - 1], k);
    }
  }

  /** No element of a parents-first, duplicate-free listing lies behind a cycle. */
  lemma OrderedNotBehindCycle<T(!new)>(E: set<(T, T)>, s: seq<T>, x: T)
    requires NoDup(s) && ParentsFirst(E, s) && x in s
    ensures !BehindCycle(E, x)
  {
    if BehindCycle(E, x) {
      var w :| WalkTo(E, w, x) && OnCycle(E, w[0]);
      var c :| IsCycle(E, c) && w[0] in c;
      var j :| 0 <= j < |s| && s[j] == x;
      var i := WalkIntoOrdered(E, s, w, j);
      var k :| 0 <= k < |c| && c[k] == w[0];
      var h := WalkIntoOrdered(E, s, c[..k + 1], i);
      WalkConcat(E, c, [c[0]]);
      var g := WalkIntoOrdered(E, s, c + [c[0]], h);
      assert false;
    }
  }

  /** A graph with a cycle puts the cycle's own elements behind it. */
  lemma CyclicHasBehind<T(!new)>(E: set<(T, T)>) returns (x: T)
    requires Cyclic(E)
    ensures x in Nodes(E) && BehindCycle(E, x)
  {
    var c :| IsCycle(E, c);
    x := c[0];
    var e := (Last(c), c[0]);
    assert e in E && e.1 == x;
    assert OnCycle(E, x);
    assert WalkTo(E, [x], x) && [x][0] == x;
  }

  lemma BehindIsCyclic<T(!new)>(E: set<(T, T)>, x: T)
    requires BehindCycle(E, x)
    ensures Cyclic(E)
  {
    var w :| WalkTo(E, w, x) && OnCycle(E, w[0]);
    var c :| IsCycle(E, c) && w[0] in c;
  }

  /** Depth is one more than the deepest parent's. */
  lemma DepthFromParents<T(!new)>(E: set<(T, T)>, x: T, d: nat, p: T)
    requires (p, x) in E && IsDepth(E, p, d)
    requires forall q :: (q, x) in E ==> exists k: nat :: k <= d && IsDepth(E, q, k)
    ensures IsDepth(E, x, d + 1)
  {
    var v :| WalkTo(E, v, p) && |v| == d + 1;
    assert WalkTo(E, v + [x], x) && |v + [x]| == d + 2;
    forall w | WalkTo(E, w, x) ensures |w| <= d + 2 {
      if |w| > 1 {
        var q := w[|w| - 2];
        assert (q, x) in E;
        assert WalkTo(E, w[..|w| - 1], q);
      }
    }
  }

  lemma DepthOfRoot<T(!new)>(E: set<(T, T)>, x: T)
    requires forall q :: (q, x) !in E
    ensures IsDepth(E, x, 0)
  {
    assert WalkTo(E, [x], x);
    forall w | WalkTo(E, w, x) ensures |w| <= 1 {
      var q := if |w| > 1 then w[|w| - 2] else x;
      assert (q, x) !in E;
    }
  }
}
