/** The class `StaticInformation` of print-introspected-doxygen.cc. */
module StaticInformation {
  import opened Sequences
  import opened TypeGraph
  import opened TypeWalks

  type Record = (TypeId, string)

  // ---- the order std::sort uses on pairs ----

  predicate StringLess(a: string, b: string) {
    b != "" && (a == "" || a[0] < b[0] || (a[0] == b[0] && StringLess(a[1..], b[1..])))
  }

  predicate Less(a: Record, b: Record) {
    a.0 < b.0 || (a.0 == b.0 && StringLess(a.1, b.1))
  }

  /** The first `n` characters agree, and then `a` ends or its next character is the smaller one. */
  predicate DiffersAt(a: string, b: string, n: nat) {
    n <= |a| && n < |b| && a[..n] == b[..n] && (n == |a| || a[n] < b[n])
  }

  lemma {:induction false} StringLessIff(a: string, b: string)
    ensures StringLess(a, b) <==> exists n: nat :: DiffersAt(a, b, n)
    decreases |a|
  {
    if a == "" || b == "" {
      if b != "" {
        assert DiffersAt(a, b, 0);
      }
    } else if a[0] != b[0] {
      if a[0] < b[0] {
        assert DiffersAt(a, b, 0);
      }
    } else {
      StringLessIff(a[1..], b[1..]);
      forall n: nat ensures DiffersAt(a[1..], b[1..], n) <==> DiffersAt(a, b, n + 1) {
        if n < |a| && n < |b| {
          assert a[..n + 1] == [a[0]] + a[1..][..n] && b[..n + 1] == [b[0]] + b[1..][..n];
        }
      }
      if n: nat :| DiffersAt(a, b, n) {
        assert n > 0;
        assert DiffersAt(a[1..], b[1..], n - 1);
      }
    }
  }

  lemma {:induction false} StringLessTotal(a: string, b: string)
    ensures StringLess(a, b) || a == b || StringLess(b, a)
    ensures !(StringLess(a, b) && StringLess(b, a)) && !StringLess(a, a)
    decreases |a|
  {
    if a == "" {
    } else {
      StringLessTotal(a[1..], a[1..]);
      if b != "" {
        StringLessTotal(a[1..], b[1..]);
        assert a == [a[0]] + a[1..] && b == [b[0]] + b[1..];
      }
    }
  }

  lemma {:induction false} StringLessTransitive(a: string, b: string, c: string)
    requires StringLess(a, b) && StringLess(b, c)
    ensures StringLess(a, c)
    decreases |a|
  {
    if a == "" || a[0] != b[0] || b[0] != c[0] {
    } else {
      StringLessTransitive(a[1..], b[1..], c[1..]);
    }
  }

  /** Sorted, and nothing occurs twice. */
  ghost predicate StrictlySorted(s: seq<Record>) {
    forall i, j :: 0 <= i < j < |s| ==> Less(s[i], s[j])
  }

  /** Sorting and dropping duplicates, one record at a time. */
  function Insert(s: seq<Record>, x: Record): (r: seq<Record>)
    requires StrictlySorted(s)
    ensures StrictlySorted(r)
    ensures forall y :: y in r <==> y in s || y == x
    decreases |s|
  {
    if s == [] then [x]
    else if s[0] == x then s
    else if Less(x, s[0]) then
      InsertFirst(s, x);
      [x] + s
    else
      InsertLater(s, x);
      [s[0]] + Insert(s[1..], x)
  }

  lemma InsertFirst(s: seq<Record>, x: Record)
    requires StrictlySorted(s) && s != [] && Less(x, s[0])
    ensures StrictlySorted([x] + s)
  {
    forall j | 0 <= j < |s| ensures Less(x, s[j]) {
      if j > 0 && x.0 == s[0].0 == s[j].0 {
        assert Less(s[0], s[j]);
        StringLessTransitive(x.1, s[0].1, s[j].1);
      }
      if j > 0 {
        assert Less(s[0], s[j]);
      }
    }
  }

  lemma InsertLater(s: seq<Record>, x: Record)
    requires StrictlySorted(s) && s != [] && s[0] != x && !Less(x, s[0])
    ensures StrictlySorted(s[1..]) && Less(s[0], x)
    ensures forall y :: y in s <==> y == s[0] || y in s[1..]
    ensures forall t ::
              StrictlySorted(t) && (forall y :: y in t ==> y in s[1..] || y == x) ==> StrictlySorted([s[0]] + t)
  {
    StringLessTotal(s[0].1, x.1);
    assert s == [s[0]] + s[1..];
    forall t | StrictlySorted(t) && (forall y :: y in t ==> y in s[1..] || y == x) ensures StrictlySorted([s[0]] + t) {
      forall j | 0 <= j < |t| ensures Less(s[0], t[j]) {
        assert t[j] in t;
        if t[j] in s[1..] {
          var k :| 0 <= k < |s[1..]| && s[1..][k] == t[j];
          assert Less(s[0], s[k + 1]);
        }
      }
    }
  }

  /** There is only one strictly sorted sequence with given elements, so any sort-and-unique gives this result. */
  lemma {:induction false} StrictlySortedUnique(s: seq<Record>, t: seq<Record>)
    requires StrictlySorted(s) && StrictlySorted(t) && forall x :: x in s <==> x in t
    ensures s == t
    decreases |s|
  {
    HasFirst(s);
    HasFirst(t);
    if s == [] {
    } else {
      assert s[0] in t && t != [] && t[0] in s;
      SmallestFirst(s, t[0]);
      SmallestFirst(t, s[0]);
      StringLessTotal(s[0].1, t[0].1);
      assert s[0] == t[0];
      forall x ensures x in s[1..] <==> x in t[1..] {
        TailElements(s, x);
        TailElements(t, x);
      }
      StrictlySortedUnique(s[1..], t[1..]);
      assert s == [s[0]] + s[1..] && t == [t[0]] + t[1..];
    }
  }

  lemma HasFirst(s: seq<Record>)
    ensures s == [] || s[0] in s
  {
  }

  lemma SmallestFirst(s: seq<Record>, x: Record)
    requires StrictlySorted(s) && x in s
    ensures s[0] == x || Less(s[0], x)
  {
  }

  lemma TailElements(s: seq<Record>, x: Record)
    requires StrictlySorted(s) && s != []
    ensures x in s[1..] <==> x in s && x != s[0]
  {
    assert s == [s[0]] + s[1..];
    if x in s[1..] {
      var k :| 0 <= k < |s[1..]| && s[1..][k] == x;
      assert Less(s[0], s[k + 1]);
      StringLessTotal(x.1, x.1);
    }
  }

  // ---- the class ----

  lemma AttributeEdgesPrefix(g: Graph, tid: TypeId, i: nat)
    requires i <= |g.reg.attributes(tid)|
    ensures AttributeEdges(g.reg.attributes(tid)[..i]) <= Edges(g, tid)
    decreases |g.reg.attributes(tid)| - i
  {
    var all := g.reg.attributes(tid);
    if i < |all| {
      assert all[..i + 1][..i] == all[..i];
      AttributeEdgesPrefix(g, tid, i + 1);
    } else {
      assert all[..i] == all;
    }
  }

  lemma ChildEdgesPrefix(g: Graph, tid: TypeId, i: nat)
    requires i <= |g.reg.registered|
    ensures AttributeEdges(g.reg.attributes(tid)) + ChildEdges(g.reg, tid, g.reg.registered[..i]) <= Edges(g, tid)
    decreases |g.reg.registered| - i
  {
    var all := g.reg.registered;
    if i < |all| {
      assert all[..i + 1][..i] == all[..i];
      ChildEdgesPrefix(g, tid, i + 1);
    } else {
      assert all[..i] == all;
    }
  }

  lemma AggregateEdgesPrefix(g: Graph, tid: TypeId, i: nat)
    requires i <= |g.aggregates|
    ensures AttributeEdges(g.reg.attributes(tid)) + ChildEdges(g.reg, tid, g.reg.registered)
            + AggregateEdges(g.reg, tid, g.aggregates[..i]) <= Edges(g, tid)
    decreases |g.aggregates| - i
  {
    var all := g.aggregates;
    if i < |all| {
      assert all[..i + 1][..i] == all[..i];
      AggregateEdgesPrefix(g, tid, i + 1);
    } else {
      assert all[..i] == all;
    }
  }

  /** The records below edge `k`, seen from both of its ends. */
  lemma RecordsBelowEdge(g: Graph, tid: TypeId, above: seq<string>, k: nat, paths: seq<seq<nat>>)
    requires k < |Edges(g, tid)|
    ensures var e := Edges(g, tid)[k];
            RecordsOf(g, tid, above, Prefixed(k, paths)) == RecordsOf(g, e.target, above + [e.step], paths)
  {
    var e := Edges(g, tid)[k];
    forall j | 0 <= j < |paths|
      ensures RecordOf(g, tid, above, [k] + paths[j]) == RecordOf(g, e.target, above + [e.step], paths[j])
    {
      var p := [k] + paths[j];
      assert p[1..] == paths[j];
      assert above + ([e.step] + Labels(g, e.target, paths[j])) == (above + [e.step]) + Labels(g, e.target, paths[j]);
    }
  }

  lemma RecordsConcat(g: Graph, tid: TypeId, above: seq<string>, a: seq<seq<nat>>, b: seq<seq<nat>>)
    ensures RecordsOf(g, tid, above, a + b) == RecordsOf(g, tid, above, a) + RecordsOf(g, tid, above, b)
  {
  }

  /** The first record and those of all edges make up the records of the walk. */
  lemma WalkRecords(g: Graph, types: set<TypeId>, tid: TypeId, above: seq<string>, avoid: set<TypeId>)
    requires Closed(g, types) && tid in types && tid !in avoid
    ensures RecordsOf(g, tid, above, PathsVia(g, types, tid, avoid, 0)) == []
    ensures RecordsOf(g, tid, above, Paths(g, types, tid, avoid))
            == [(tid, PathString(above))] + RecordsOf(g, tid, above, PathsVia(g, types, tid, avoid, |Edges(g, tid)|))
  {
    assert above + [] == above;
    assert RecordsOf(g, tid, above, [[]]) == [(tid, PathString(above))];
    RecordsConcat(g, tid, above, [[]], PathsVia(g, types, tid, avoid, |Edges(g, tid)|));
  }

  lemma NothingToWalk(g: Graph, types: set<TypeId>, tid: TypeId, above: seq<string>, avoid: set<TypeId>)
    requires Closed(g, types) && tid in types && tid in avoid
    ensures RecordsOf(g, tid, above, Paths(g, types, tid, avoid)) == []
  {
  }

  class StaticInformation {
    const reg: Registry
    var output: seq<Record>
    var currentPath: seq<string>
    var alreadyProcessed: seq<TypeId>
    var aggregates: seq<(TypeId, TypeId)>

    constructor (reg: Registry)
      ensures this.reg == reg && output == [] && currentPath == [] && alreadyProcessed == [] && aggregates == []
    {
      this.reg := reg;
      output, currentPath, alreadyProcessed, aggregates := [], [], [], [];
    }

    function TheGraph(): Graph
      reads this`aggregates
    {
      Graph(reg, aggregates)
    }

    method RecordAggregationInfo(a: TypeId, b: TypeId)
      modifies this`aggregates
      ensures aggregates == old(aggregates) + [(a, b)]
    {
      aggregates := aggregates + [(a, b)];
    }

    method GetCurrentPath() returns (path: string)
      ensures path == PathString(currentPath)
    {
      path := "";
      for i := 0 to |currentPath|
        invariant path == PathString(currentPath[..i])
      {
        assert currentPath[..i + 1][..i] == currentPath[..i];
        path := path + "/" + currentPath[i];
      }
      assert currentPath[..|currentPath|] == currentPath;
    }

    method RecordOutput(tid: TypeId)
      modifies this`output
      ensures output == old(output) + [(tid, PathString(currentPath))]
    {
      var path := GetCurrentPath();
      output := output + [(tid, path)];
    }

    method HasAlreadyBeenProcessed(tid: TypeId) returns (found: bool)
      ensures found <==> tid in alreadyProcessed
    {
      for i := 0 to |alreadyProcessed|
        invariant tid !in alreadyProcessed[..i]
      {
        if alreadyProcessed[i] == tid {
          return true;
        }
      }
      return false;
    }

    /** The recorded paths of one type, in output order. */
    method Get(tid: TypeId) returns (paths: seq<string>)
      ensures forall p :: p in paths <==> (tid, p) in output
      ensures StrictlySorted(output) ==> forall i, j :: 0 <= i < j < |paths| ==> StringLess(paths[i], paths[j])
    {
      paths := [];
      ghost var at: seq<nat> := [];
      for i := 0 to |output|
        invariant |at| == |paths|
        invariant forall k :: 0 <= k < |at| ==> at[k] < i && output[at[k]] == (tid, paths[k])
        invariant forall j, k :: 0 <= j < k < |at| ==> at[j] < at[k]
        invariant forall p :: (tid, p) in output[..i] ==> p in paths
      {
        if output[i].0 == tid {
          paths := paths + [output[i].1];
          at := at + [i];
        }
      }
      assert output[..|output|] == output;
      if StrictlySorted(output) {
        forall j, k | 0 <= j < k < |paths| ensures StringLess(paths[j], paths[k]) {
          assert Less(output[at[j]], output[at[k]]);
        }
      }
    }

    /** Follows one edge: push its label and this type, walk, pop both. */
    method Follow(tid: TypeId, step: string, target: TypeId, ghost types: set<TypeId>)
      requires Closed(TheGraph(), types) && tid in types && target in types && tid !in alreadyProcessed
      modifies this`output, this`currentPath, this`alreadyProcessed
      ensures output == old(output) + RecordsOf(TheGraph(), target, old(currentPath) + [step],
                                                Paths(TheGraph(), types, target, Elems(old(alreadyProcessed)) + {tid}))
      ensures currentPath == old(currentPath) && alreadyProcessed == old(alreadyProcessed)
      decreases |types - Elems(alreadyProcessed)|, 0, 0
    {
      currentPath := currentPath + [step];
      alreadyProcessed := alreadyProcessed + [tid];
      assert Elems(alreadyProcessed) == old(Elems(alreadyProcessed)) + {tid};
      Shrinks(types, tid, old(Elems(alreadyProcessed)));
      DoGather(target, types);
      alreadyProcessed := alreadyProcessed[..|alreadyProcessed| - 1];
      currentPath := currentPath[..|currentPath| - 1];
    }

    /**
     * `DoGather` terminates on any finite graph, cyclic or not, and appends one record for each simple path from
     * `tid` that meets no type on the stack, in the order of the enumeration `Paths`.
     */
    method DoGather(tid: TypeId, ghost types: set<TypeId>)
      requires Closed(TheGraph(), types) && tid in types
      modifies this`output, this`currentPath, this`alreadyProcessed
      ensures output == old(output) + RecordsOf(TheGraph(), tid, old(currentPath),
                                                Paths(TheGraph(), types, tid, Elems(old(alreadyProcessed))))
      ensures currentPath == old(currentPath) && alreadyProcessed == old(alreadyProcessed)
      decreases |types - Elems(alreadyProcessed)|, 1
    {
      hide Edges, Closed, PathString, RecordsOf, RecordOf, Paths, PathsVia, End, Labels;
      var found := HasAlreadyBeenProcessed(tid);
      ghost var g, above, avoid := TheGraph(), currentPath, Elems(alreadyProcessed);
      if found {
        NothingToWalk(g, types, tid, above, avoid);
        return;
      }
      WalkRecords(g, types, tid, above, avoid);
      RecordOutput(tid);
      ghost var first := output;
      ghost var a := GatherAttributes(tid, types, g, first);
      ghost var b := GatherChildren(tid, types, g, a, first);
      ghost var c := GatherAggregates(tid, types, g, b, first);
    }

    /** The output holds the records of the first `n` edges of `tid` behind `first`. */
    ghost predicate Gathered(tid: TypeId, types: set<TypeId>, g: Graph, n: nat, first: seq<Record>)
      reads this
    {
      && g == TheGraph() && Closed(g, types) && tid in types && tid !in alreadyProcessed
      && n <= |Edges(g, tid)|
      && output == first + RecordsOf(g, tid, currentPath, PathsVia(g, types, tid, Elems(alreadyProcessed), n))
    }

    /** The loop over pointer and object-container attributes. */
    method GatherAttributes(tid: TypeId, ghost types: set<TypeId>, ghost g: Graph, ghost first: seq<Record>)
      returns (ghost n: nat)
      requires Gathered(tid, types, g, 0, first)
      modifies this`output, this`currentPath, this`alreadyProcessed
      ensures currentPath == old(currentPath) && alreadyProcessed == old(alreadyProcessed)
      ensures n == |AttributeEdges(reg.attributes(tid))| && Gathered(tid, types, g, n, first)
      decreases |types - Elems(alreadyProcessed)|, 0, 2
    {
      hide Edges, PathsVia, Closed;
      n := 0;
      var attributes := reg.attributes(tid);
      for i := 0 to |attributes|
        invariant currentPath == old(currentPath) && alreadyProcessed == old(alreadyProcessed)
        invariant n == |AttributeEdges(attributes[..i])| && Gathered(tid, types, g, n, first)
      {
        assert attributes[..i + 1][..i] == attributes[..i];
        AttributeEdgesPrefix(g, tid, i + 1);
        match attributes[i] {
          case Pointer(name, pointee) =>
            n := FollowEdge(tid, name, pointee, types, g, n, first);
          case Container(name, item) =>
            n := FollowEdge(tid, name + "/[i]", item, types, g, n, first);
          case Plain(_) =>
        }
      }
      assert attributes[..|attributes|] == attributes;
    }

    /** The loop over the registered types, for the children of `tid`. */
    method GatherChildren(tid: TypeId, ghost types: set<TypeId>, ghost g: Graph, ghost n0: nat,
                          ghost first: seq<Record>)
      returns (ghost n: nat)
      requires Gathered(tid, types, g, n0, first) && n0 == |AttributeEdges(reg.attributes(tid))|
      modifies this`output, this`currentPath, this`alreadyProcessed
      ensures currentPath == old(currentPath) && alreadyProcessed == old(alreadyProcessed)
      ensures n == n0 + |ChildEdges(reg, tid, reg.registered)| && Gathered(tid, types, g, n, first)
      decreases |types - Elems(alreadyProcessed)|, 0, 2
    {
      hide Edges, PathsVia, Closed;
      n := n0;
      for j := 0 to |reg.registered|
        invariant currentPath == old(currentPath) && alreadyProcessed == old(alreadyProcessed)
        invariant n == n0 + |ChildEdges(reg, tid, reg.registered[..j])| && Gathered(tid, types, g, n, first)
      {
        assert reg.registered[..j + 1][..j] == reg.registered[..j];
        ChildEdgesPrefix(g, tid, j + 1);
        var child := reg.registered[j];
        if reg.isChildOf(child, tid) {
          n := FollowEdge(tid, "$" + reg.typeLabel(child), child, types, g, n, first);
        }
      }
      assert reg.registered[..|reg.registered|] == reg.registered;
    }

    /** The loop over the recorded aggregations that involve `tid`. */
    method GatherAggregates(tid: TypeId, ghost types: set<TypeId>, ghost g: Graph, ghost n0: nat,
                            ghost first: seq<Record>)
      returns (ghost n: nat)
      requires Gathered(tid, types, g, n0, first)
      requires n0 == |AttributeEdges(reg.attributes(tid))| + |ChildEdges(reg, tid, reg.registered)|
      modifies this`output, this`currentPath, this`alreadyProcessed
      ensures currentPath == old(currentPath) && alreadyProcessed == old(alreadyProcessed)
      ensures n == |Edges(g, tid)| && Gathered(tid, types, g, n, first)
      decreases |types - Elems(alreadyProcessed)|, 0, 2
    {
      hide PathsVia, Closed;
      n := n0;
      for k := 0 to |aggregates|
        invariant currentPath == old(currentPath) && alreadyProcessed == old(alreadyProcessed)
        invariant n == n0 + |AggregateEdges(reg, tid, aggregates[..k])| && Gathered(tid, types, g, n, first)
      {
        assert aggregates[..k + 1][..k] == aggregates[..k];
        AggregateEdgesPrefix(g, tid, k + 1);
        var pair := aggregates[k];
        if pair.0 == tid || pair.1 == tid {
          var other := pair.0;
          if pair.0 == tid {
            other := pair.1;
          }
          if pair.1 == tid {
            other := pair.0;
          }
          n := FollowEdge(tid, "$" + reg.typeLabel(other), other, types, g, n, first);
        }
      }
      assert aggregates[..|aggregates|] == aggregates;
    }

    /** Follows edge `n` of `tid`, the records of the edges before it being in the output already. */
    method FollowEdge(tid: TypeId, step: string, target: TypeId, ghost types: set<TypeId>,
                      ghost g: Graph, ghost n: nat, ghost first: seq<Record>) returns (ghost n': nat)
      requires Gathered(tid, types, g, n, first)
      requires n < |Edges(g, tid)| && Edges(g, tid)[n] == Edge(step, target)
      modifies this`output, this`currentPath, this`alreadyProcessed
      ensures n' == n + 1 && Gathered(tid, types, g, n', first)
      ensures currentPath == old(currentPath) && alreadyProcessed == old(alreadyProcessed)
      decreases |types - Elems(alreadyProcessed)|, 0, 1
    {
      ghost var above, avoid := currentPath, Elems(alreadyProcessed);
      ghost var before := PathsVia(g, types, tid, avoid, n);
      ghost var deeper := Paths(g, types, target, avoid + {tid});
      Follow(tid, step, target, types);
      RecordsBelowEdge(g, tid, above, n, deeper);
      RecordsConcat(g, tid, above, before, Prefixed(n, deeper));
      n' := n + 1;
    }

    /** `std::sort` followed by `std::unique` and `erase`. */
    method SortUnique()
      modifies this`output
      ensures StrictlySorted(output) && forall r :: r in output <==> r in old(output)
    {
      var sorted: seq<Record> := [];
      for i := 0 to |output|
        invariant output == old(output)
        invariant StrictlySorted(sorted) && forall r :: r in sorted <==> r in output[..i]
      {
        assert output[..i + 1] == output[..i] + [output[i]];
        sorted := Insert(sorted, output[i]);
      }
      assert output[..|output|] == output;
      output := sorted;
    }

    /**
     * After `Gather` the output is sorted without duplicates and holds what it held before and the records of all
     * simple paths from `tid`.
     */
    method Gather(tid: TypeId, ghost types: set<TypeId>)
      requires Closed(TheGraph(), types) && tid in types && alreadyProcessed == [] && currentPath == []
      modifies this`output, this`currentPath, this`alreadyProcessed
      ensures alreadyProcessed == [] && currentPath == []
      ensures StrictlySorted(output)
      ensures forall r :: r in output <==>
                r in old(output) || IsRecord(TheGraph(), tid, r)
      ensures forall r: Record :: r in output <==> r in old(output) || RecordsWalk(TheGraph(), tid, r)
    {
      hide RecordsWalk, IsRecord, Paths, RecordsOf, StrictlySorted, Closed;
      DoGather(tid, types);
      assert Elems(alreadyProcessed) == {};
      ghost var g := TheGraph();
      ghost var paths := Paths(g, types, tid, {});
      ghost var gathered := output;
      assert gathered == old(output) + RecordsOf(g, tid, [], paths);
      SortUnique();
      forall r ensures r in output <==>
        r in old(output) || IsRecord(TheGraph(), tid, r)
      {
        assert r in output <==> r in gathered;
        RecordedIff(g, types, tid, r);
      }
      forall r: Record ensures IsRecord(g, tid, r) <==> RecordsWalk(g, tid, r) {
        RecordIffWalk(g, tid, r);
      }
    }
  }

  /** The records of the edge lists are those of the walks from type to type. */
  lemma RecordIffWalk(g: Graph, tid: TypeId, r: Record)
    ensures IsRecord(g, tid, r) <==> RecordsWalk(g, tid, r)
  {
    hide RecordsWalk, RecordOf, SimplePath;
    if p :| SimplePath(g, tid, {}, p) && r == RecordOf(g, tid, [], p) {
      RecordIsWalk(g, tid, p);
    }
    if RecordsWalk(g, tid, r) {
      var p := WalkIsRecord(g, tid, r);
    }
  }

  /** `r` is the record of a simple path from `tid`. */
  ghost predicate IsRecord(g: Graph, tid: TypeId, r: Record) {
    exists p :: SimplePath(g, tid, {}, p) && r == RecordOf(g, tid, [], p)
  }

  lemma RecordedIff(g: Graph, types: set<TypeId>, tid: TypeId, r: Record)
    requires Closed(g, types) && tid in types
    ensures r in RecordsOf(g, tid, [], Paths(g, types, tid, {}))
            <==> IsRecord(g, tid, r)
  {
    var paths := Paths(g, types, tid, {});
    if r in RecordsOf(g, tid, [], paths) {
      var k :| 0 <= k < |paths| && r == RecordOf(g, tid, [], paths[k]);
      InPaths(g, types, tid, {}, paths[k]);
      assert paths[k] in paths;
    }
    if p :| SimplePath(g, tid, {}, p) && r == RecordOf(g, tid, [], p) {
      InPaths(g, types, tid, {}, p);
      var k :| 0 <= k < |paths| && paths[k] == p;
      assert RecordsOf(g, tid, [], paths)[k] == r;
    }
  }
}
