/** The orders in which the worklist of topsort.py can give an acyclic graph, whatever the order of keys and pairs. */
module WorklistOrders {
  import opened Sequences
  import opened Digraph
  import opened Topsort

  /** A complete answer on the graph `E`: releases happen in list order, ties in any order. */
  ghost predicate Possible<T(!new)>(E: set<(T, T)>, order: seq<T>) {
    NoDup(order) && Elems(order) == Nodes(E) && exists rel :: FifoOrder(E, order, rel)
  }

  /** Depth never falls along a possible order. */
  lemma DepthAlong<T(!new)>(E: set<(T, T)>, order: seq<T>, j: nat, k: nat, d: nat, e: nat)
    requires Possible(E, order) && j <= k < |order| && IsDepth(E, order[j], d) && IsDepth(E, order[k], e)
    ensures d <= e
  {
    var rel :| FifoOrder(E, order, rel);
    FifoDepth(E, order, rel, j);
    FifoDepth(E, order, rel, k);
    DepthUnique(E, order[j], d, ReleaseDepth(rel, j));
    DepthUnique(E, order[k], e, ReleaseDepth(rel, k));
    ReleaseDepthMonotone(rel, j, k);
  }

  lemma HasDepth<T(!new)>(E: set<(T, T)>, x: T) returns (d: nat)
    requires !Cyclic(E) && x in Nodes(E)
    ensures IsDepth(E, x, d)
  {
    var order, rel := SomeOrder(E, {});
    var j :| 0 <= j < |order| && order[j] == x;
    FifoDepth(E, order, rel, j);
    d := ReleaseDepth(rel, j);
  }

  // ---- building an order ----

  /** Of the elements released together, a preferred one stands last if there is one. */
  ghost predicate PreferredLast<T>(preferred: set<T>, order: seq<T>, rel: seq<int>)
    requires |rel| == |order|
  {
    forall j :: 0 <= j < |order| && order[j] in preferred ==> HasLast(preferred, order, rel, j)
  }

  ghost predicate HasLast<T>(preferred: set<T>, order: seq<T>, rel: seq<int>, j: nat)
    requires |rel| == |order| && j < |order|
  {
    exists l: nat :: IsLast(preferred, order, rel, j, l)
  }

  ghost predicate IsLast<T>(preferred: set<T>, order: seq<T>, rel: seq<int>, j: nat, l: nat)
    requires |rel| == |order| && j < |order|
  {
    && j <= l < |order| && order[l] in preferred && rel[l] == rel[j]
    && forall k :: l < k < |order| ==> rel[k] > rel[l]
  }

  ghost predicate Ready<T>(E: set<(T, T)>, done: seq<T>, y: T) {
    forall e :: e in E && e.1 == y ==> e.0 in done
  }

  /** The worklist with its first `i` elements processed: all that is ready stands on it. */
  ghost predicate Building<T(!new)>(E: set<(T, T)>, preferred: set<T>, order: seq<T>, rel: seq<int>, i: nat) {
    && i <= |order| && NoDup(order) && Elems(order) <= Nodes(E)
    && FifoOrder(E, order, rel) && (forall k :: 0 <= k < |rel| ==> rel[k] < i)
    && (forall y :: y in Nodes(E) && Ready(E, order[..i], y) ==> y in order)
    && PreferredLast(preferred, order, rel)
  }

  /** Lists a set, a preferred element last if there is one. */
  lemma ListSet<T>(s: set<T>, preferred: set<T>) returns (list: seq<T>)
    ensures NoDup(list) && Elems(list) == s
    ensures (exists x :: x in s && x in preferred) ==> list != [] && Last(list) in preferred
    decreases |s|
  {
    if s == {} {
      list := [];
    } else {
      var x :| x in s;
      if y :| y in s && y in preferred {
        x := y;
      }
      var front := ListSet(s - {x}, {});
      list := front + [x];
      assert Elems(list) == Elems(front) + {x};
    }
  }

  lemma Roots<T(!new)>(E: set<(T, T)>, preferred: set<T>) returns (order: seq<T>, rel: seq<int>)
    ensures Building(E, preferred, order, rel, 0)
  {
    hide PreferredLast, Nodes, NoDup;
    var roots := set y | y in Nodes(E) && Ready(E, [], y);
    order := ListSet(roots, preferred);
    rel := seq(|order|, _ => -1);
    assert forall y :: y in order <==> y in roots by {
      assert forall y :: y in order <==> y in Elems(order);
    }
    assert order[..0] == [];
    forall j | 0 <= j < |order| ensures ReleasedBy(E, order, j, -1) {
      assert order[j] in roots;
    }
    NoPreference(preferred);
    BatchPrefersLast(preferred, [], [], -1, order);
    assert [] + order == order && [] + rel == rel;
  }

  lemma NoPreference<T>(preferred: set<T>)
    ensures PreferredLast(preferred, [], [])
  {
  }

  /** Processing one more element releases what becomes ready. */
  lemma Release<T(!new)>(E: set<(T, T)>, preferred: set<T>, order: seq<T>, rel: seq<int>, i: nat)
    returns (order': seq<T>, rel': seq<int>)
    requires Building(E, preferred, order, rel, i) && i < |order|
    ensures Building(E, preferred, order', rel', i + 1)
  {
    SameLength(E, order, rel);
    hide PreferredLast, NoDup, Nodes, FifoOrder;
    var released := set y | y in Nodes(E) && y !in order && Ready(E, order[..i + 1], y);
    var batch := ListSet(released, preferred);
    order', rel' := order + batch, rel + seq(|batch|, _ => i);
    assert forall y :: y in batch <==> y in released by {
      assert forall y :: y in batch <==> y in Elems(batch);
    }
    BatchIsFifo(E, order, rel, i, batch);
    BatchPrefersLast(preferred, order, rel, i, batch);
    assert order'[..i + 1] == order[..i + 1];
    assert Elems(order') == Elems(order) + Elems(batch);
    NoDupConcat(order, batch);
  }

  lemma BatchIsFifo<T(!new)>(E: set<(T, T)>, order: seq<T>, rel: seq<int>, i: nat, batch: seq<T>)
    requires FifoOrder(E, order, rel) && i < |order| && forall k :: 0 <= k < |rel| ==> rel[k] < i
    requires forall y :: y in batch ==> Ready(E, order[..i + 1], y) && !Ready(E, order[..i], y)
    ensures FifoOrder(E, order + batch, rel + seq(|batch|, _ => i))
  {
    var order', rel' := order + batch, rel + seq(|batch|, _ => i);
    forall j | 0 <= j < |rel'| ensures ReleasedBy(E, order', j, rel'[j]) {
      if j < |order| {
        assert ReleasedBy(E, order, j, rel[j]);
        assert order'[..rel[j] + 1] == order[..rel[j] + 1];
      } else {
        var y := batch[j - |order|];
        assert y in batch && order'[j] == y;
        assert order'[..i + 1] == order[..i + 1];
        var e :| e in E && e.1 == y && e.0 !in order[..i];
        assert order[..i + 1] == order[..i] + [order[i]];
        assert e == (order[i], y);
      }
    }
  }

  lemma BatchPrefersLast<T>(preferred: set<T>, order: seq<T>, rel: seq<int>, i: int, batch: seq<T>)
    requires |rel| == |order| && PreferredLast(preferred, order, rel) && forall k :: 0 <= k < |rel| ==> rel[k] < i
    requires (exists x :: x in batch && x in preferred) ==> batch != [] && Last(batch) in preferred
    ensures PreferredLast(preferred, order + batch, rel + seq(|batch|, _ => i))
  {
    var order', rel' := order + batch, rel + seq(|batch|, _ => i);
    forall j | 0 <= j < |order'| && order'[j] in preferred ensures HasLast(preferred, order', rel', j) {
      if j < |order| {
        assert HasLast(preferred, order, rel, j);
        var l: nat :| IsLast(preferred, order, rel, j, l);
        StillLast(preferred, order, rel, i, batch, j, l);
      } else {
        assert order'[j] in batch;
        assert IsLast(preferred, order', rel', j, |order'| - 1);
      }
    }
  }

  lemma StillLast<T>(preferred: set<T>, order: seq<T>, rel: seq<int>, i: int, batch: seq<T>, j: nat, l: nat)
    requires |rel| == |order| && j < |order| && IsLast(preferred, order, rel, j, l)
    requires forall k :: 0 <= k < |rel| ==> rel[k] < i
    ensures IsLast(preferred, order + batch, rel + seq(|batch|, _ => i), j, l)
  {
  }

  lemma {:induction false} Finish<T(!new)>(E: set<(T, T)>, preferred: set<T>, order: seq<T>, rel: seq<int>, i: nat)
    returns (order': seq<T>, rel': seq<int>)
    requires Building(E, preferred, order, rel, i)
    ensures Building(E, preferred, order', rel', |order'|)
    decreases |Nodes(E)| - i
  {
    if i == |order| {
      order', rel' := order, rel;
    } else {
      NoDupBound(order, Nodes(E));
      order', rel' := Release(E, preferred, order, rel, i);
      order', rel' := Finish(E, preferred, order', rel', i + 1);
    }
  }

  /** There is a possible order, and any preference among elements released together can be met. */
  lemma SomeOrder<T(!new)>(E: set<(T, T)>, preferred: set<T>) returns (order: seq<T>, rel: seq<int>)
    requires !Cyclic(E)
    ensures NoDup(order) && Elems(order) == Nodes(E) && FifoOrder(E, order, rel)
    ensures Possible(E, order) && PreferredLast(preferred, order, rel)
  {
    hide PreferredLast, FifoOrder, NoDup, Cyclic, BehindCycle;
    order, rel := Roots(E, preferred);
    order, rel := Finish(E, preferred, order, rel, 0);
    assert order[..|order|] == order;
    AllListed(E, order);
    SameLength(E, order, rel);
  }

  lemma SameLength<T(!new)>(E: set<(T, T)>, order: seq<T>, rel: seq<int>)
    requires FifoOrder(E, order, rel)
    ensures |rel| == |order|
  {
  }

  /** When nothing ready is missing from a list, nothing outside cycles is. */
  lemma AllListed<T(!new)>(E: set<(T, T)>, order: seq<T>)
    requires !Cyclic(E) && Elems(order) <= Nodes(E)
    requires forall y :: y in Nodes(E) && Ready(E, order, y) ==> y in order
    ensures Elems(order) == Nodes(E)
  {
    hide Cyclic, Nodes;
    var rest := Nodes(E) - Elems(order);
    forall y | y in rest ensures HasParentIn(E, rest, y) {
      var e :| e in E && e.1 == y && e.0 !in order;
      ParentIsNode(E, e);
      assert e.0 in rest;
    }
    hide HasParentIn, Ready;
    NothingClosed(E, rest);
    assert Nodes(E) == Elems(order) + rest;
  }

  lemma ParentIsNode<T>(E: set<(T, T)>, e: (T, T))
    requires e in E
    ensures e.0 in Nodes(E)
  {
  }

  lemma NothingClosed<T(!new)>(E: set<(T, T)>, rest: set<T>)
    requires !Cyclic(E) && ParentClosed(E, rest)
    ensures rest == {}
  {
    hide Cyclic, BehindCycle, ParentClosed;
    if rest != {} {
      var x :| x in rest;
      ParentClosedIsBehindCycle(E, rest, x);
      BehindIsCyclic(E, x);
    }
  }

  // ---- any element can come last of its depth ----

  lemma LongestWalkDepths<T(!new)>(E: set<(T, T)>, w: seq<T>, x: T, k: nat)
    requires WalkTo(E, w, x) && IsDepth(E, x, |w| - 1) && k < |w|
    ensures IsDepth(E, w[k], k)
  {
    assert WalkTo(E, w[..k + 1], w[k]);
    forall v | WalkTo(E, v, w[k]) ensures |v| <= k + 1 {
      if k + 1 < |w| {
        assert (w[k], w[k + 1]) in E;
        assert IsWalk(E, w[k + 1..]) && Last(w[k + 1..]) == x;
        WalkConcat(E, v, w[k + 1..]);
        assert WalkTo(E, v + w[k + 1..], x);
      } else {
        assert w[k] == x;
      }
    }
  }

  /** The elements of a longest walk are each the last of their depth in an order that prefers them. */
  lemma {:induction false} WalkComesLast<T(!new)>(E: set<(T, T)>, w: seq<T>, order: seq<T>, rel: seq<int>,
                                                  j: nat, p: nat)
    requires IsWalk(E, w) && (forall k :: 0 <= k < |w| ==> IsDepth(E, w[k], k))
    requires FifoOrder(E, order, rel) && PreferredLast(Elems(w), order, rel) && NoDup(order)
    requires j < |order| && p < |order| && order[p] in w && IsDepth(E, order[p], ReleaseDepth(rel, j))
    ensures j <= p
    decreases ReleaseDepth(rel, j)
  {
    hide IsDepth, PreferredLast, NoDup;
    var d := ReleaseDepth(rel, j);
    FifoDepth(E, order, rel, p);
    DepthUnique(E, order[p], d, ReleaseDepth(rel, p));
    OnlyOneOfDepth(E, w, order[p], d);
    LastOfBatch(E, w, order, rel, p);
    if j > p {
      assert rel[j] > rel[p];
      assert d > 0;
      var c := w[d - 1];
      assert (c, order[p]) in E by { assert (w[d - 1], w[d - 1 + 1]) in E; }
      assert ReleasedBy(E, order, p, rel[p]);
      assert (c, order[p]).0 in order[..rel[p] + 1];
      var q :| 0 <= q <= rel[p] && order[q] == c;
      WalkComesLast(E, w, order, rel, rel[j], q);
    }
  }

  lemma OnlyOneOfDepth<T(!new)>(E: set<(T, T)>, w: seq<T>, x: T, d: nat)
    requires (forall k :: 0 <= k < |w| ==> IsDepth(E, w[k], k)) && x in w && IsDepth(E, x, d)
    ensures d < |w| && w[d] == x
  {
    var k :| 0 <= k < |w| && w[k] == x;
    DepthUnique(E, x, d, k);
  }

  lemma LastOfBatch<T(!new)>(E: set<(T, T)>, w: seq<T>, order: seq<T>, rel: seq<int>, p: nat)
    requires forall k :: 0 <= k < |w| ==> IsDepth(E, w[k], k)
    requires FifoOrder(E, order, rel) && PreferredLast(Elems(w), order, rel) && NoDup(order)
    requires p < |order| && order[p] in w
    ensures forall k :: p < k < |order| ==> rel[k] > rel[p]
  {
    hide IsDepth, ReleasedBy;
    assert HasLast(Elems(w), order, rel, p);
    var l: nat :| IsLast(Elems(w), order, rel, p, l);
    FifoDepth(E, order, rel, p);
    FifoDepth(E, order, rel, l);
    assert ReleaseDepth(rel, l) == ReleaseDepth(rel, p);
    OnlyOneOfDepth(E, w, order[p], ReleaseDepth(rel, p));
    OnlyOneOfDepth(E, w, order[l], ReleaseDepth(rel, l));
  }

  /** In some possible order nothing of the depth of `x` stands behind `x`. */
  lemma CanComeLast<T(!new)>(E: set<(T, T)>, x: T, d: nat) returns (order: seq<T>, p: nat)
    requires !Cyclic(E) && x in Nodes(E) && IsDepth(E, x, d)
    ensures Possible(E, order) && p < |order| && order[p] == x
    ensures forall j :: 0 <= j < |order| && IsDepth(E, order[j], d) ==> j <= p
  {
    var w :| WalkTo(E, w, x) && |w| == d + 1;
    forall k | 0 <= k < |w| ensures IsDepth(E, w[k], k) {
      LongestWalkDepths(E, w, x, k);
    }
    var rel;
    order, rel := SomeOrder(E, Elems(w));
    p :| 0 <= p < |order| && order[p] == x;
    forall j | 0 <= j < |order| && IsDepth(E, order[j], d) ensures j <= p {
      FifoDepth(E, order, rel, j);
      DepthUnique(E, order[j], d, ReleaseDepth(rel, j));
      WalkComesLast(E, w, order, rel, j, p);
    }
  }
}
