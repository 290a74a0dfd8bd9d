/** The stack-of-paths cycle search of `find_cycles` in topsort.py. */
module FindCycles {
  import opened Sequences
  import opened Digraph
  import opened Rotation

  ghost function ChildEdges<T>(parentChildren: map<T, seq<T>>): set<(T, T)> {
    set p, c | p in parentChildren && c in parentChildren[p] :: (p, c)
  }

  ghost predicate Represented<T>(cycles: seq<seq<T>>, c: seq<T>) {
    exists k :: 0 <= k < |cycles| && IsRotation(cycles[k], c)
  }

  /** Each simple cycle of `E` is listed in exactly one of its rotations, and nothing else is. */
  ghost predicate ListsSimpleCycles<T(!new)>(E: set<(T, T)>, cycles: seq<seq<T>>) {
    && SoundAndDistinct(E, cycles)
    && (forall c :: IsSimpleCycle(E, c) ==> Represented(cycles, c))
  }

  ghost predicate SoundAndDistinct<T>(E: set<(T, T)>, cycles: seq<seq<T>>) {
    && (forall k :: 0 <= k < |cycles| ==> IsSimpleCycle(E, cycles[k]))
    && (forall i, j :: 0 <= i < |cycles| && 0 <= j < |cycles| && i != j ==> !IsRotation(cycles[i], cycles[j]))
  }

  ghost predicate SimplePath<T>(E: set<(T, T)>, start: T, p: seq<T>) {
    IsWalk(E, p) && NoDup(p) && p[0] == start
  }

  function IndexOf<T(==)>(s: seq<T>, x: T): (i: nat)
    requires x in s
    ensures i < |s| && s[i] == x && x !in s[..i]
  {
    if s[0] == x then 0 else 1 + IndexOf(s[1..], x)
  }

  /** The cycle that a child on the path closes. */
  function ClosedBy<T(==)>(path: seq<T>, child: T): seq<T>
    requires child in path
  {
    path[IndexOf(path, child)..]
  }

  /** Every cycle closed by a child in `cs` of the end of `path` is listed. */
  ghost predicate ClosuresListed<T(!new)>(path: seq<T>, cs: seq<T>, cycles: seq<seq<T>>) {
    forall c :: c in cs && c in path ==> Represented(cycles, ClosedBy(path, c))
  }

  ghost predicate Handled<T(!new)>(parentChildren: map<T, seq<T>>, cycles: seq<seq<T>>, p: seq<T>)
    requires |p| > 0
  {
    Last(p) in parentChildren ==> ClosuresListed(p, parentChildren[Last(p)], cycles)
  }

  ghost predicate HasPrefixIn<T>(paths: seq<seq<T>>, p: seq<T>) {
    exists k :: 0 <= k < |paths| && paths[k] <= p
  }

  /** Each simple path from `start` is dealt with already or will grow out of one on the stack. */
  ghost predicate Covered<T(!new)>(parentChildren: map<T, seq<T>>, start: T, paths: seq<seq<T>>, cycles: seq<seq<T>>) {
    forall p :: SimplePath(ChildEdges(parentChildren), start, p) ==>
      Handled(parentChildren, cycles, p) || HasPrefixIn(paths, p)
  }

  ghost predicate AllSimple<T>(E: set<(T, T)>, start: T, paths: seq<seq<T>>) {
    forall k :: 0 <= k < |paths| ==> SimplePath(E, start, paths[k])
  }

  /** The paths pushed for the children in `cs`, in order. */
  ghost function Extensions<T>(path: seq<T>, cs: seq<T>): seq<seq<T>> {
    if cs == [] then []
    else Extensions(path, cs[..|cs| - 1]) + if Last(cs) in path then [] else [path + [Last(cs)]]
  }

  lemma {:induction false} ExtensionsHold<T>(path: seq<T>, cs: seq<T>, c: T)
    requires c in cs && c !in path
    ensures exists k :: 0 <= k < |Extensions(path, cs)| && Extensions(path, cs)[k] == path + [c]
    decreases |cs|
  {
    var front := cs[..|cs| - 1];
    if c == Last(cs) {
      assert Last(Extensions(path, cs)) == path + [c];
    } else {
      assert cs == front + [Last(cs)];
      ExtensionsHold(path, front, c);
      var k :| 0 <= k < |Extensions(path, front)| && Extensions(path, front)[k] == path + [c];
      assert Extensions(path, cs)[k] == path + [c];
    }
  }

  lemma {:induction false} ExtensionsSimple<T>(E: set<(T, T)>, start: T, path: seq<T>, cs: seq<T>)
    requires SimplePath(E, start, path) && forall c :: c in cs ==> (Last(path), c) in E
    ensures AllSimple(E, start, Extensions(path, cs))
    decreases |cs|
  {
    if cs == [] {
    } else {
      var front := cs[..|cs| - 1];
      assert cs == front + [Last(cs)];
      ExtensionsSimple(E, start, path, front);
      if Last(cs) !in path {
        WalkConcat(E, path, [Last(cs)]);
      }
    }
  }

  // ---- termination: the weight of the stack ----

  ghost function Weight(fanOut: nat, room: nat): nat {
    if room == 0 then 1 else 1 + fanOut * Weight(fanOut, room - 1)
  }

  ghost function StackWeight<T>(fanOut: nat, size: nat, paths: seq<seq<T>>): nat
    requires Fits(size, paths)
  {
    if paths == [] then 0
    else StackWeight(fanOut, size, paths[..|paths| - 1]) + Weight(fanOut, size - |Last(paths)|)
  }

  lemma {:induction false} StackWeightConcat<T>(fanOut: nat, size: nat, a: seq<seq<T>>, b: seq<seq<T>>)
    requires Fits(size, a)
    requires Fits(size, b)
    ensures StackWeight(fanOut, size, a + b) == StackWeight(fanOut, size, a) + StackWeight(fanOut, size, b)
    decreases |b|
  {
    if b == [] {
      assert a + b == a;
    } else {
      assert (a + b)[..|a + b| - 1] == a + b[..|b| - 1];
      StackWeightConcat(fanOut, size, a, b[..|b| - 1]);
    }
  }

  lemma {:induction false} ExtensionsShape<T>(path: seq<T>, cs: seq<T>)
    ensures |Extensions(path, cs)| <= |cs|
    ensures forall k :: 0 <= k < |Extensions(path, cs)| ==> |Extensions(path, cs)[k]| == |path| + 1
    decreases |cs|
  {
    if cs == [] {
    } else {
      ExtensionsShape(path, cs[..|cs| - 1]);
    }
  }

  lemma {:induction false} UniformWeight<T>(fanOut: nat, size: nat, paths: seq<seq<T>>, len: nat)
    requires len <= size && forall k :: 0 <= k < |paths| ==> |paths[k]| == len
    ensures StackWeight(fanOut, size, paths) == |paths| * Weight(fanOut, size - len)
    decreases |paths|
  {
    if paths == [] {
    } else {
      UniformWeight(fanOut, size, paths[..|paths| - 1], len);
      var w := Weight(fanOut, size - len);
      assert |paths| * w == (|paths| - 1) * w + w;
    }
  }

  lemma TimesMonotone(a: nat, b: nat, w: nat)
    requires a <= b
    ensures a * w <= b * w
  {
  }

  lemma ExtensionsAreLighter<T>(fanOut: nat, size: nat, path: seq<T>, cs: seq<T>)
    requires |cs| <= fanOut && |path| <= size
    requires Fits(size, Extensions(path, cs))
    ensures StackWeight(fanOut, size, Extensions(path, cs)) < Weight(fanOut, size - |path|)
  {
    hide Extensions;
    var pushed := Extensions(path, cs);
    ExtensionsShape(path, cs);
    if pushed != [] {
      assert |pushed[0]| <= size;
      var w := Weight(fanOut, size - |path| - 1);
      UniformWeight(fanOut, size, pushed, |path| + 1);
      TimesMonotone(|pushed|, fanOut, w);
      assert Weight(fanOut, size - |path|) == 1 + fanOut * w;
    }
  }

  /** Replacing a path by its extensions makes the stack lighter. */
  lemma PopIsLighter<T>(fanOut: nat, size: nat, rest: seq<seq<T>>, path: seq<T>, cs: seq<T>)
    requires |cs| <= fanOut && |path| <= size
    requires Fits(size, rest)
    requires Fits(size, Extensions(path, cs))
    ensures StackWeight(fanOut, size, rest + Extensions(path, cs)) < StackWeight(fanOut, size, rest + [path])
  {
    hide Extensions, Weight;
    StackWeightConcat(fanOut, size, rest, Extensions(path, cs));
    StackWeightConcat(fanOut, size, rest, [path]);
    assert [path][..0] == [];
    ExtensionsAreLighter(fanOut, size, path, cs);
  }

  lemma {:induction false} FanOutExists<T>(parentChildren: map<T, seq<T>>, keys: set<T>) returns (fanOut: nat)
    requires keys <= parentChildren.Keys
    ensures forall p :: p in keys ==> |parentChildren[p]| <= fanOut
    decreases |keys|
  {
    if keys == {} {
      fanOut := 0;
    } else {
      var p :| p in keys;
      var f := FanOutExists(parentChildren, keys - {p});
      fanOut := if f < |parentChildren[p]| then |parentChildren[p]| else f;
    }
  }

  // ---- the search ----

  lemma ClosedIsSimpleCycle<T>(E: set<(T, T)>, path: seq<T>, child: T)
    requires IsWalk(E, path) && NoDup(path) && child in path && (Last(path), child) in E
    ensures IsSimpleCycle(E, ClosedBy(path, child))
  {
    assert Last(ClosedBy(path, child)) == Last(path);
  }

  method SeenBefore<T(==)>(cycles: seq<seq<T>>, cycle: seq<T>) returns (isDup: bool)
    requires cycle != []
    ensures isDup <==> Represented(cycles, cycle)
  {
    for k := 0 to |cycles|
      invariant forall j :: 0 <= j < k ==> !IsRotation(cycles[j], cycle)
    {
      var r := IsRotated(cycles[k], cycle);
      if r == Known(true) {
        return true;
      }
    }
    return false;
  }

  lemma AddCycle<T>(E: set<(T, T)>, cycles: seq<seq<T>>, cycle: seq<T>)
    requires SoundAndDistinct(E, cycles) && IsSimpleCycle(E, cycle) && !Represented(cycles, cycle)
    ensures SoundAndDistinct(E, cycles + [cycle]) && Represented(cycles + [cycle], cycle)
  {
    hide IsSimpleCycle;
    var more := cycles + [cycle];
    forall i, j | 0 <= i < |more| && 0 <= j < |more| && i != j ensures !IsRotation(more[i], more[j]) {
      if i == |cycles| && IsRotation(more[i], more[j]) {
        RotationSymmetric(more[i], more[j]);
      }
    }
    assert cycle != [] by { SimpleCycleNonempty(E, cycle); }
    RotationFrom(cycle, 0);
    assert Rotate(cycle, 0) == cycle && more[|cycles|] == cycle;
  }

  lemma SimpleCycleNonempty<T>(E: set<(T, T)>, cycle: seq<T>)
    requires IsSimpleCycle(E, cycle)
    ensures cycle != []
  {
  }

  lemma RepresentedGrows<T>(cycles: seq<seq<T>>, more: seq<seq<T>>, c: seq<T>)
    requires cycles <= more && Represented(cycles, c)
    ensures Represented(more, c)
  {
    var k :| 0 <= k < |cycles| && IsRotation(cycles[k], c);
    assert more[k] == cycles[k];
  }

  ghost predicate ReachedFrom<T(!new)>(E: set<(T, T)>, starts: set<T>, v: T) {
    exists p :: IsWalk(E, p) && p[0] in starts && Last(p) == v
  }

  /** The loop over the children of the end of `path`. */
  method ExtendPath<T(==, !new)>(path: seq<T>, children: seq<T>, paths0: seq<seq<T>>, cycles0: seq<seq<T>>,
                                 visited0: set<T>, ghost E: set<(T, T)>, ghost starts: set<T>)
    returns (paths: seq<seq<T>>, cycles: seq<seq<T>>, visited: set<T>)
    requires IsWalk(E, path) && NoDup(path) && path[0] in starts
    requires forall c :: c in children ==> (Last(path), c) in E
    requires SoundAndDistinct(E, cycles0)
    ensures paths == paths0 + Extensions(path, children)
    ensures ClosuresListed(path, children, cycles)
    ensures cycles0 <= cycles && SoundAndDistinct(E, cycles)
    ensures forall v :: v in visited ==> v in visited0 || ReachedFrom(E, starts, v)
  {
    hide SoundAndDistinct, Represented, IsSimpleCycle, ClosedBy;
    paths, cycles, visited := paths0, cycles0, visited0;
    for j := 0 to |children|
      invariant paths == paths0 + Extensions(path, children[..j])
      invariant ClosuresListed(path, children[..j], cycles)
      invariant cycles0 <= cycles && SoundAndDistinct(E, cycles)
      invariant forall v :: v in visited ==> v in visited0 || ReachedFrom(E, starts, v)
    {
      var child := children[j];
      assert children[..j + 1] == children[..j] + [child];
      assert children[..j + 1][..j] == children[..j];
      ghost var before := cycles;
      if child in path {
        var cycle := ClosedBy(path, child);
        ClosedIsSimpleCycle(E, path, child);
        SimpleCycleNonempty(E, cycle);
        var isDup := SeenBefore(cycles, cycle);
        if !isDup {
          AddCycle(E, cycles, cycle);
          cycles := cycles + [cycle];
        }
        forall c | c in children[..j] && c in path ensures Represented(cycles, ClosedBy(path, c)) {
          RepresentedGrows(before, cycles, ClosedBy(path, c));
        }
      } else {
        paths := paths + [path + [child]];
        visited := visited + {child};
        WalkConcat(E, path, [child]);
        assert Last(path + [child]) == child;
      }
    }
    assert children[..|children|] == children;
  }

  lemma CoveredStep<T(!new)>(parentChildren: map<T, seq<T>>, start: T, rest: seq<seq<T>>, path: seq<T>,
                             cycles: seq<seq<T>>, pushed: seq<seq<T>>, cycles': seq<seq<T>>)
    requires Covered(parentChildren, start, rest + [path], cycles)
    requires path != [] && cycles <= cycles' && Handled(parentChildren, cycles', path)
    requires if Last(path) in parentChildren then pushed == Extensions(path, parentChildren[Last(path)])
             else pushed == []
    ensures Covered(parentChildren, start, rest + pushed, cycles')
  {
    var E := ChildEdges(parentChildren);
    forall p | SimplePath(E, start, p)
      ensures Handled(parentChildren, cycles', p) || HasPrefixIn(rest + pushed, p)
    {
      if Handled(parentChildren, cycles, p) {
        HandledGrows(parentChildren, cycles, cycles', p);
      } else {
        assert HasPrefixIn(rest + [path], p);
        var k :| 0 <= k < |rest + [path]| && (rest + [path])[k] <= p;
        if k < |rest| {
          assert (rest + pushed)[k] <= p;
        } else if p != path {
          LongerPathIsPushed(parentChildren, start, path, p);
          var cs := parentChildren[Last(path)];
          var m :| 0 <= m < |pushed| && pushed[m] <= p;
          assert (rest + pushed)[|rest| + m] <= p;
        }
      }
    }
  }

  lemma HandledGrows<T(!new)>(parentChildren: map<T, seq<T>>, cycles: seq<seq<T>>, more: seq<seq<T>>, p: seq<T>)
    requires |p| > 0 && cycles <= more && Handled(parentChildren, cycles, p)
    ensures Handled(parentChildren, more, p)
  {
    if Last(p) in parentChildren {
      forall c | c in parentChildren[Last(p)] && c in p ensures Represented(more, ClosedBy(p, c)) {
        RepresentedGrows(cycles, more, ClosedBy(p, c));
      }
    }
  }

  /** A simple path that goes on from `path` goes on through one of the paths pushed for it. */
  lemma LongerPathIsPushed<T>(parentChildren: map<T, seq<T>>, start: T, path: seq<T>, p: seq<T>)
    requires path != [] && path <= p && p != path
    requires SimplePath(ChildEdges(parentChildren), start, p)
    ensures Last(path) in parentChildren
    ensures exists m :: 0 <= m < |Extensions(path, parentChildren[Last(path)])|
                        && Extensions(path, parentChildren[Last(path)])[m] <= p
  {
    var c := p[|path|];
    assert (p[|path| - 1], p[|path| - 1 + 1]) in ChildEdges(parentChildren);
    var cs := parentChildren[Last(path)];
    ExtensionsHold(path, cs, c);
    var m :| 0 <= m < |Extensions(path, cs)| && Extensions(path, cs)[m] == path + [c];
  }

  /** The `while paths` loop for one starting parent. */
  method Explore<T(==, !new)>(parentChildren: map<T, seq<T>>, start: T, cycles0: seq<seq<T>>, visited0: set<T>,
                              ghost starts: set<T>)
    returns (cycles: seq<seq<T>>, visited: set<T>)
    requires start in parentChildren && start in starts
    requires SoundAndDistinct(ChildEdges(parentChildren), cycles0)
    ensures cycles0 <= cycles && SoundAndDistinct(ChildEdges(parentChildren), cycles)
    ensures forall p :: SimplePath(ChildEdges(parentChildren), start, p) ==> Handled(parentChildren, cycles, p)
    ensures forall v :: v in visited ==> v in visited0 || ReachedFrom(ChildEdges(parentChildren), starts, v)
  {
    hide *;
    ghost var E := ChildEdges(parentChildren);
    ghost var fanOut := FanOutExists(parentChildren, parentChildren.Keys);
    ghost var size := |Nodes(E) + {start}|;
    var paths := [[start]];
    cycles, visited := cycles0, visited0;
    CoveredStart(parentChildren, start, cycles);
    StackFits(E, start, paths);
    while paths != []
      invariant AllSimple(E, start, paths) && Fits(size, paths)
      invariant Covered(parentChildren, start, paths, cycles)
      invariant cycles0 <= cycles && SoundAndDistinct(E, cycles)
      invariant forall v :: v in visited ==> v in visited0 || ReachedFrom(E, starts, v)
      decreases StackWeight(fanOut, size, paths)
    {
      var path, rest := paths[|paths| - 1], paths[..|paths| - 1];
      assert paths == rest + [path];
      StackTop(parentChildren, start, size, rest, path);
      ghost var before := cycles;
      var parent := path[|path| - 1];
      if parent in parentChildren {
        var cs := parentChildren[parent];
        paths, cycles, visited := ExtendPath(path, cs, rest, cycles, visited, E, starts);
        ExtensionsSimple(E, start, path, cs);
        AllSimpleConcat(E, start, rest, Extensions(path, cs));
        ListedIsHandled(parentChildren, cycles, path);
        CoveredStep(parentChildren, start, rest, path, before, Extensions(path, cs), cycles);
        StackFits(E, start, paths);
        FitsConcat(size, rest, Extensions(path, cs));
        PopIsLighter(fanOut, size, rest, path, cs);
      } else {
        paths := rest;
        ListedIsHandled(parentChildren, cycles, path);
        CoveredStep(parentChildren, start, rest, path, before, [], cycles);
        assert rest + [] == rest;
        DropIsLighter(fanOut, size, rest, path);
      }
    }
    forall p | SimplePath(E, start, p) ensures |p| > 0 && Handled(parentChildren, cycles, p) {
      EmptyStackHandled(parentChildren, start, cycles, p);
    }
  }

  lemma EmptyStackHandled<T(!new)>(parentChildren: map<T, seq<T>>, start: T, cycles: seq<seq<T>>, p: seq<T>)
    requires Covered(parentChildren, start, [], cycles) && SimplePath(ChildEdges(parentChildren), start, p)
    ensures |p| > 0 && Handled(parentChildren, cycles, p)
  {
  }

  lemma StackTop<T>(parentChildren: map<T, seq<T>>, start: T, size: nat, rest: seq<seq<T>>, path: seq<T>)
    requires AllSimple(ChildEdges(parentChildren), start, rest + [path]) && Fits(size, rest + [path])
    ensures AllSimple(ChildEdges(parentChildren), start, rest) && Fits(size, rest)
    ensures SimplePath(ChildEdges(parentChildren), start, path) && |path| <= size
    ensures IsWalk(ChildEdges(parentChildren), path) && NoDup(path) && |path| > 0 && path[0] == start
    ensures Last(path) == path[|path| - 1]
    ensures Last(path) in parentChildren ==>
              forall c :: c in parentChildren[Last(path)] ==> (Last(path), c) in ChildEdges(parentChildren)
  {
    assert (rest + [path])[|rest|] == path;
    assert forall k :: 0 <= k < |rest| ==> (rest + [path])[k] == rest[k];
  }

  lemma AllSimpleConcat<T>(E: set<(T, T)>, start: T, a: seq<seq<T>>, b: seq<seq<T>>)
    requires AllSimple(E, start, a) && AllSimple(E, start, b)
    ensures AllSimple(E, start, a + b)
  {
  }

  lemma ListedIsHandled<T(!new)>(parentChildren: map<T, seq<T>>, cycles: seq<seq<T>>, path: seq<T>)
    requires |path| > 0
    requires Last(path) in parentChildren ==> ClosuresListed(path, parentChildren[Last(path)], cycles)
    ensures Handled(parentChildren, cycles, path)
  {
  }

  lemma DropIsLighter<T>(fanOut: nat, size: nat, rest: seq<seq<T>>, path: seq<T>)
    requires Fits(size, rest) && |path| <= size
    ensures Fits(size, rest + [path])
    ensures StackWeight(fanOut, size, rest) < StackWeight(fanOut, size, rest + [path])
  {
    StackWeightConcat(fanOut, size, rest, [path]);
    assert [path][..0] == [];
  }

  ghost predicate Fits<T>(size: nat, paths: seq<seq<T>>) {
    forall k :: 0 <= k < |paths| ==> |paths[k]| <= size
  }

  lemma FitsConcat<T>(size: nat, a: seq<seq<T>>, b: seq<seq<T>>)
    requires Fits(size, a + b)
    ensures Fits(size, b)
  {
    forall k | 0 <= k < |b| ensures |b[k]| <= size {
      assert (a + b)[|a| + k] == b[k];
    }
  }

  lemma StackFits<T>(E: set<(T, T)>, start: T, paths: seq<seq<T>>)
    requires AllSimple(E, start, paths)
    ensures Fits(|Nodes(E) + {start}|, paths)
  {
    forall k | 0 <= k < |paths| ensures |paths[k]| <= |Nodes(E) + {start}| {
      var p := paths[k];
      forall x | x in p ensures x in Nodes(E) + {start} {
        var i :| 0 <= i < |p| && p[i] == x;
        if i > 0 {
          var e := (p[i - 1], p[i - 1 + 1]);
          assert e in E;
        }
      }
      NoDupBound(p, Nodes(E) + {start});
    }
  }

  lemma CoveredStart<T(!new)>(parentChildren: map<T, seq<T>>, start: T, cycles: seq<seq<T>>)
    ensures Covered(parentChildren, start, [[start]], cycles)
    ensures AllSimple(ChildEdges(parentChildren), start, [[start]])
  {
    forall p | SimplePath(ChildEdges(parentChildren), start, p) ensures HasPrefixIn([[start]], p) {
      assert [[start]][0] <= p;
    }
  }

  // ---- completeness ----

  /** A walk that ends on a cycle can be cut to a simple path that meets the cycle only at its end. */
  lemma {:induction false} EnterCycle<T>(E: set<(T, T)>, w: seq<T>, c: seq<T>) returns (p: seq<T>)
    requires IsWalk(E, w) && Last(w) in c
    ensures SimplePath(E, w[0], p) && Last(p) in c
    ensures forall i :: 0 <= i < |p| - 1 ==> p[i] !in c
    decreases |w|
  {
    if i :| 0 <= i < |w| - 1 && w[i] in c {
      p := EnterCycle(E, w[..i + 1], c);
    } else if i, j :| 0 <= i < j < |w| && w[i] == w[j] {
      var v := w[..i + 1] + w[j + 1..];
      assert forall k :: 0 <= k < |v| - 1 ==> (v[k], v[k + 1]) in E by {
        forall k | 0 <= k < |v| - 1 ensures (v[k], v[k + 1]) in E {
          var m := if k < i then k else k + (j - i);
          assert v[k] == w[m] && v[k + 1] == w[m + 1];
        }
      }
      assert Last(v) == Last(w);
      p := EnterCycle(E, v, c);
    } else {
      p := w;
    }
  }

  lemma JoinSimple<T>(E: set<(T, T)>, p: seq<T>, r: seq<T>)
    requires IsWalk(E, p) && NoDup(p) && IsWalk(E, r) && NoDup(r) && Last(p) == r[0]
    requires forall i :: 0 <= i < |p| - 1 ==> p[i] !in r
    ensures IsWalk(E, p[..|p| - 1] + r) && NoDup(p[..|p| - 1] + r)
    ensures (p[..|p| - 1] + r)[0] == p[0]
  {
    var front := p[..|p| - 1];
    if |p| > 1 {
      assert (p[|p| - 2], p[|p| - 2 + 1]) in E;
      WalkConcat(E, front, r);
    } else {
      assert front + r == r;
    }
  }

  lemma IndexOfUnique<T>(s: seq<T>, x: T, i: nat)
    requires NoDup(s) && i < |s| && s[i] == x
    ensures x in s && IndexOf(s, x) == i
  {
  }

  /** Following the cycle once from where the path enters it gives a simple path that closes on it. */
  lemma PathAroundCycle<T>(E: set<(T, T)>, start: T, p: seq<T>, c: seq<T>, k: nat)
    requires SimplePath(E, start, p) && IsSimpleCycle(E, c) && k < |c| && Last(p) == c[k]
    requires forall i :: 0 <= i < |p| - 1 ==> p[i] !in c
    ensures var q := p[..|p| - 1] + Rotate(c, k);
            && SimplePath(E, start, q)
            && c[k] in q && (Last(q), c[k]) in E
            && ClosedBy(q, c[k]) == Rotate(c, k)
  {
    var r := Rotate(c, k);
    RotatedCycle(E, c, k);
    RotationNoDup(c, k);
    assert r[0] == c[k];
    assert forall x :: x in r ==> x in c;
    JoinSimple(E, p, r);
    var q := p[..|p| - 1] + r;
    hide NoDup, IsWalk;
    assert q[|p| - 1] == c[k] && Last(q) == Last(r);
    IndexOfUnique(q, c[k], |p| - 1);
  }

  lemma RotationNoDup<T>(c: seq<T>, k: nat)
    requires NoDup(c) && k <= |c|
    ensures NoDup(Rotate(c, k))
  {
  }

  lemma CycleIsListed<T(!new)>(parentChildren: map<T, seq<T>>, starts: set<T>, cycles: seq<seq<T>>, c: seq<T>)
    requires forall s, p :: s in starts && SimplePath(ChildEdges(parentChildren), s, p) ==>
               |p| > 0 && Handled(parentChildren, cycles, p)
    requires forall k :: k in parentChildren ==> ReachedFrom(ChildEdges(parentChildren), starts, k)
    requires IsSimpleCycle(ChildEdges(parentChildren), c)
    ensures Represented(cycles, c)
  {
    hide NoDup, Handled, Represented;
    var E := ChildEdges(parentChildren);
    var entry := if |c| > 1 then (c[0], c[0 + 1]) else (Last(c), c[0]);
    assert entry in E && c[0] in parentChildren;
    var w :| IsWalk(E, w) && w[0] in starts && Last(w) == c[0];
    var p := EnterCycle(E, w, c);
    var k :| 0 <= k < |c| && c[k] == Last(p);
    PathAroundCycle(E, w[0], p, c, k);
    var q := p[..|p| - 1] + Rotate(c, k);
    assert (Last(q), c[k]) in E;
    HandledCloses(parentChildren, cycles, q, c[k]);
    RotatedIsRepresented(cycles, c, k);
  }

  lemma HandledCloses<T(!new)>(parentChildren: map<T, seq<T>>, cycles: seq<seq<T>>, q: seq<T>, child: T)
    requires |q| > 0 && Handled(parentChildren, cycles, q)
    requires child in q && (Last(q), child) in ChildEdges(parentChildren)
    ensures Represented(cycles, ClosedBy(q, child))
  {
  }

  lemma RotatedIsRepresented<T>(cycles: seq<seq<T>>, c: seq<T>, k: nat)
    requires k < |c| && Represented(cycles, Rotate(c, k))
    ensures Represented(cycles, c)
  {
    var m :| 0 <= m < |cycles| && IsRotation(cycles[m], Rotate(c, k));
    RotationFrom(c, k);
    RotationSymmetric(c, Rotate(c, k));
    RotationTransitive(cycles[m], Rotate(c, k), c);
  }

  lemma {:induction false} CyclicHasSimpleCycle<T(!new)>(E: set<(T, T)>, c: seq<T>) returns (s: seq<T>)
    requires IsCycle(E, c)
    ensures IsSimpleCycle(E, s) && forall x :: x in s ==> x in c
    decreases |c|
  {
    if i, j :| 0 <= i < j < |c| && c[i] == c[j] {
      RepeatIsCycle(E, c, i, j);
      s := CyclicHasSimpleCycle(E, c[i..j]);
    } else {
      s := c;
    }
  }

  /**
   * `find_cycles`, for any order of the dictionary's keys: it terminates, every list it yields is a simple
   * cycle, every simple cycle is yielded up to rotation, and no two yielded lists are rotations of each other.
   */
  method FindCycles<T(==, !new)>(parentChildren: map<T, seq<T>>) returns (cycles: seq<seq<T>>)
    ensures ListsSimpleCycles(ChildEdges(parentChildren), cycles)
    ensures cycles == [] <==> !Cyclic(ChildEdges(parentChildren))
  {
    hide Handled, ReachedFrom, SimplePath, Represented, IsSimpleCycle, IsRotation;
    ghost var E := ChildEdges(parentChildren);
    cycles := [];
    var visited: set<T> := {};
    ghost var starts: set<T> := {};
    var rest := parentChildren.Keys;
    while rest != {}
      invariant rest <= parentChildren.Keys
      invariant SoundAndDistinct(E, cycles)
      invariant forall s, p :: s in starts && SimplePath(E, s, p) ==> |p| > 0 && Handled(parentChildren, cycles, p)
      invariant forall k :: k in visited || (k in parentChildren && k !in rest) ==> ReachedFrom(E, starts, k)
    {
      var parent :| parent in rest;
      rest := rest - {parent};
      if parent !in visited {
        ghost var before, starts0 := cycles, starts;
        starts := starts + {parent};
        cycles, visited := Explore(parentChildren, parent, cycles, visited, starts);
        forall k | ReachedFrom(E, starts0, k) ensures ReachedFrom(E, starts, k) {
          MoreStarts(E, starts0, starts, k);
        }
        StartIsReached(E, starts, parent);
        forall s, p | s in starts && SimplePath(E, s, p) ensures |p| > 0 && Handled(parentChildren, cycles, p) {
          if s in starts0 {
            HandledGrows(parentChildren, before, cycles, p);
          } else {
            SimplePathNonempty(E, s, p);
          }
        }
      }
    }
    forall c | IsSimpleCycle(E, c) ensures Represented(cycles, c) {
      CycleIsListed(parentChildren, starts, cycles, c);
    }
    NothingListed(E, cycles);
  }

  lemma SimplePathNonempty<T>(E: set<(T, T)>, start: T, p: seq<T>)
    requires SimplePath(E, start, p)
    ensures |p| > 0
  {
  }

  lemma MoreStarts<T(!new)>(E: set<(T, T)>, starts: set<T>, more: set<T>, k: T)
    requires ReachedFrom(E, starts, k) && starts <= more
    ensures ReachedFrom(E, more, k)
  {
  }

  lemma StartIsReached<T(!new)>(E: set<(T, T)>, starts: set<T>, s: T)
    requires s in starts
    ensures ReachedFrom(E, starts, s)
  {
    assert IsWalk(E, [s]) && [s][0] in starts && Last([s]) == s;
  }

  /** A list of the simple cycles is empty exactly when the graph has no cycle at all. */
  lemma NothingListed<T(!new)>(E: set<(T, T)>, cycles: seq<seq<T>>)
    requires ListsSimpleCycles(E, cycles)
    ensures cycles == [] <==> !Cyclic(E)
  {
    if Cyclic(E) {
      var c :| IsCycle(E, c);
      var s := CyclicHasSimpleCycle(E, c);
      assert Represented(cycles, s);
    }
    if cycles != [] {
      assert IsSimpleCycle(E, cycles[0]);
    }
  }
}
