/** The walk over ns-3's type graph in print-introspected-doxygen.cc. */
module TypeGraph {
  import opened Sequences

  type TypeId = nat

  datatype Attribute =
    | Pointer(name: string, pointee: TypeId)
    | Container(name: string, item: TypeId)
    | Plain(name: string)

  /** What TypeId answers about attributes, registration and inheritance; `typeLabel` is the printed name after `$`. */
  datatype Registry = Registry(
    attributes: TypeId -> seq<Attribute>,
    registered: seq<TypeId>,
    isChildOf: (TypeId, TypeId) -> bool,
    typeLabel: TypeId -> string)

  datatype Edge = Edge(step: string, target: TypeId)

  datatype Graph = Graph(reg: Registry, aggregates: seq<(TypeId, TypeId)>)

  // ---- the edges of a type, in the order the walk takes them ----

  function AttributeEdges(attributes: seq<Attribute>): seq<Edge> {
    if attributes == [] then []
    else
      AttributeEdges(attributes[..|attributes| - 1])
      + match attributes[|attributes| - 1]
        case Pointer(name, pointee) => [Edge(name, pointee)]
        case Container(name, item) => [Edge(name + "/[i]", item)]
        case Plain(_) => []
  }

  function ChildEdges(reg: Registry, tid: TypeId, registered: seq<TypeId>): seq<Edge> {
    if registered == [] then []
    else
      var child := registered[|registered| - 1];
      ChildEdges(reg, tid, registered[..|registered| - 1])
      + if reg.isChildOf(child, tid) then [Edge("$" + reg.typeLabel(child), child)] else []
  }

  /** The other side of an aggregation; for a type aggregated with itself the type itself. */
  function OtherSide(pair: (TypeId, TypeId), tid: TypeId): TypeId {
    if pair.1 == tid then pair.0 else pair.1
  }

  function AggregateEdges(reg: Registry, tid: TypeId, aggregates: seq<(TypeId, TypeId)>): seq<Edge> {
    if aggregates == [] then []
    else
      var pair := aggregates[|aggregates| - 1];
      AggregateEdges(reg, tid, aggregates[..|aggregates| - 1])
      + if pair.0 == tid || pair.1 == tid
        then [Edge("$" + reg.typeLabel(OtherSide(pair, tid)), OtherSide(pair, tid))] else []
  }

  function Edges(g: Graph, tid: TypeId): seq<Edge> {
    AttributeEdges(g.reg.attributes(tid))
    + ChildEdges(g.reg, tid, g.reg.registered)
    + AggregateEdges(g.reg, tid, g.aggregates)
  }

  /** Every edge leads to one of the finitely many types. */
  ghost predicate Closed(g: Graph, types: set<TypeId>) {
    forall tid, k :: 0 <= k < |Edges(g, tid)| ==> Edges(g, tid)[k].target in types
  }

  // ---- labelled simple paths, as lists of edge numbers ----

  ghost predicate ValidPath(g: Graph, tid: TypeId, p: seq<nat>)
    decreases |p|
  {
    p == [] || (p[0] < |Edges(g, tid)| && ValidPath(g, Edges(g, tid)[p[0]].target, p[1..]))
  }

  /** The types a path passes through, both ends included. */
  ghost function Types(g: Graph, tid: TypeId, p: seq<nat>): seq<TypeId>
    requires ValidPath(g, tid, p)
    decreases |p|
  {
    if p == [] then [tid] else [tid] + Types(g, Edges(g, tid)[p[0]].target, p[1..])
  }

  ghost predicate SimplePath(g: Graph, tid: TypeId, avoid: set<TypeId>, p: seq<nat>) {
    && ValidPath(g, tid, p)
    && NoDup(Types(g, tid, p))
    && forall t :: t in Types(g, tid, p) ==> t !in avoid
  }

  function Labels(g: Graph, tid: TypeId, p: seq<nat>): seq<string>
    decreases |p|
  {
    if p == [] || p[0] >= |Edges(g, tid)| then []
    else [Edges(g, tid)[p[0]].step] + Labels(g, Edges(g, tid)[p[0]].target, p[1..])
  }

  function End(g: Graph, tid: TypeId, p: seq<nat>): TypeId
    decreases |p|
  {
    if p == [] || p[0] >= |Edges(g, tid)| then tid else End(g, Edges(g, tid)[p[0]].target, p[1..])
  }

  function PathString(items: seq<string>): string {
    if items == [] then "" else PathString(items[..|items| - 1]) + "/" + items[|items| - 1]
  }

  /** What is recorded for a path: its last type, and its labels behind those of the walk so far. */
  function RecordOf(g: Graph, tid: TypeId, above: seq<string>, p: seq<nat>): (TypeId, string) {
    (End(g, tid, p), PathString(above + Labels(g, tid, p)))
  }

  function RecordsOf(g: Graph, tid: TypeId, above: seq<string>, paths: seq<seq<nat>>): seq<(TypeId, string)> {
    seq(|paths|, k requires 0 <= k < |paths| => RecordOf(g, tid, above, paths[k]))
  }

  // ---- the enumeration the walk makes ----

  ghost function Prefixed(k: nat, paths: seq<seq<nat>>): seq<seq<nat>> {
    seq(|paths|, j requires 0 <= j < |paths| => [k] + paths[j])
  }

  /** The paths from `tid` that meet no type of `avoid`, in the order the walk records them. */
  ghost function Paths(g: Graph, types: set<TypeId>, tid: TypeId, avoid: set<TypeId>): seq<seq<nat>>
    requires Closed(g, types) && tid in types
    decreases |types - avoid|, 1, 0
  {
    if tid in avoid then [] else [[]] + PathsVia(g, types, tid, avoid, |Edges(g, tid)|)
  }

  /** Those that start with one of the first `n` edges. */
  ghost function PathsVia(g: Graph, types: set<TypeId>, tid: TypeId, avoid: set<TypeId>, n: nat): seq<seq<nat>>
    requires Closed(g, types) && tid in types && tid !in avoid && n <= |Edges(g, tid)|
    decreases |types - avoid|, 0, n
  {
    if n == 0 then []
    else
      Shrinks(types, tid, avoid);
      PathsVia(g, types, tid, avoid, n - 1)
      + Prefixed(n - 1, Paths(g, types, Edges(g, tid)[n - 1].target, avoid + {tid}))
  }

  lemma Shrinks(types: set<TypeId>, tid: TypeId, avoid: set<TypeId>)
    requires tid in types && tid !in avoid
    ensures |types - (avoid + {tid})| < |types - avoid|
  {
    assert types - avoid == (types - (avoid + {tid})) + {tid};
  }

  lemma {:induction false} InPathsVia(g: Graph, types: set<TypeId>, tid: TypeId, avoid: set<TypeId>, n: nat,
                                      p: seq<nat>)
    requires Closed(g, types) && tid in types && tid !in avoid && n <= |Edges(g, tid)|
    ensures p in PathsVia(g, types, tid, avoid, n) <==>
            p != [] && p[0] < n && SimplePath(g, Edges(g, tid)[p[0]].target, avoid + {tid}, p[1..])
    decreases |types - avoid|, 0, n
  {
    if n == 0 {
    } else {
      Shrinks(types, tid, avoid);
      var t := Edges(g, tid)[n - 1].target;
      var deeper := Paths(g, types, t, avoid + {tid});
      InPathsVia(g, types, tid, avoid, n - 1, p);
      if p != [] && p[0] == n - 1 {
        InPaths(g, types, t, avoid + {tid}, p[1..]);
        assert p == [n - 1] + p[1..];
        if p[1..] in deeper {
          var j :| 0 <= j < |deeper| && deeper[j] == p[1..];
          assert Prefixed(n - 1, deeper)[j] == p;
        }
      }
      if p in Prefixed(n - 1, deeper) {
        var j :| 0 <= j < |deeper| && p == [n - 1] + deeper[j];
        assert p[1..] == deeper[j];
      }
    }
  }

  lemma SimplePathStep(g: Graph, tid: TypeId, avoid: set<TypeId>, p: seq<nat>)
    requires p != [] && p[0] < |Edges(g, tid)|
    ensures SimplePath(g, tid, avoid, p) <==>
            tid !in avoid && SimplePath(g, Edges(g, tid)[p[0]].target, avoid + {tid}, p[1..])
  {
    var t := Edges(g, tid)[p[0]].target;
    if ValidPath(g, t, p[1..]) {
      var rest := Types(g, t, p[1..]);
      var all := Types(g, tid, p);
      assert all == [tid] + rest;
      NoDupCons(tid, rest);
      hide NoDup, Types;
      assert forall u :: u in all <==> u == tid || u in rest;
    }
  }

  /** The walk records exactly the simple paths from its argument that avoid the types on the stack. */
  lemma {:induction false} InPaths(g: Graph, types: set<TypeId>, tid: TypeId, avoid: set<TypeId>, p: seq<nat>)
    requires Closed(g, types) && tid in types
    ensures p in Paths(g, types, tid, avoid) <==> SimplePath(g, tid, avoid, p)
    decreases |types - avoid|, 1, 0
  {
    if tid in avoid {
      if ValidPath(g, tid, p) {
        assert Types(g, tid, p)[0] == tid;
      }
    } else if p == [] {
      assert Types(g, tid, []) == [tid];
      assert Paths(g, types, tid, avoid)[0] == [];
    } else {
      InPathsVia(g, types, tid, avoid, |Edges(g, tid)|, p);
      if p[0] < |Edges(g, tid)| {
        SimplePathStep(g, tid, avoid, p);
      }
    }
  }

  lemma {:induction false} PathsViaDistinct(g: Graph, types: set<TypeId>, tid: TypeId, avoid: set<TypeId>, n: nat)
    requires Closed(g, types) && tid in types && tid !in avoid && n <= |Edges(g, tid)|
    ensures NoDup(PathsVia(g, types, tid, avoid, n))
    decreases |types - avoid|, 0, n
  {
    if n == 0 {
    } else {
      Shrinks(types, tid, avoid);
      var t := Edges(g, tid)[n - 1].target;
      var deeper := Paths(g, types, t, avoid + {tid});
      PathsViaDistinct(g, types, tid, avoid, n - 1);
      PathsDistinct(g, types, t, avoid + {tid});
      var a, b := PathsVia(g, types, tid, avoid, n - 1), Prefixed(n - 1, deeper);
      forall j, k | 0 <= j < k < |b| ensures b[j] != b[k] {
        assert b[j][1..] == deeper[j] && b[k][1..] == deeper[k];
      }
      forall j, k | 0 <= j < |a| && 0 <= k < |b| ensures a[j] != b[k] {
        InPathsVia(g, types, tid, avoid, n - 1, a[j]);
        assert a[j] in a;
      }
    }
  }

  /** No path is recorded twice. */
  lemma {:induction false} PathsDistinct(g: Graph, types: set<TypeId>, tid: TypeId, avoid: set<TypeId>)
    requires Closed(g, types) && tid in types
    ensures NoDup(Paths(g, types, tid, avoid))
    decreases |types - avoid|, 1, 0
  {
    if tid in avoid {
    } else {
      var n := |Edges(g, tid)|;
      PathsViaDistinct(g, types, tid, avoid, n);
      var via := PathsVia(g, types, tid, avoid, n);
      forall k | 0 <= k < |via| ensures via[k] != [] {
        InPathsVia(g, types, tid, avoid, n, via[k]);
        assert via[k] in via;
      }
    }
  }
}
